# Persona roster and trait economy

This project models the state logic of DOODLE / MIND_0, a chat toy. In it, sixteen
"personas" each carry a four-letter personality type code. The user
unlocks personas with an energy balance, switches them on and off, and
"resonates" with (likes) their messages. Each like reinforces an
eight-counter trait vector, and the profile screen reads the user's own
dominant type from that vector. Around this economy sit several pieces:
- the first-run selection of a primary persona with three companions, one
  of which is preferably its "shadow", the persona whose code is its
  letter-by-letter complement;
- a 2d6 skill check;
- the request shaping and failure handling of the generation service;
- the journal's entry construction and newest-first listing;
- the bazaar's temperament groups and buttons;
- the chat screen's guards;
- the four-page onboarding pager.

Each source file has one Dafny module:

| module | file |
|---|---|
| `Types` | types.ts; the roster is a sequence of personas with distinct ids, in key order |
| `Constants` | constants.ts |
| `App` | App.tsx: the session transitions |
| `Profile` | components/ProfileInterface.tsx |
| `LogicEngine` | services/logicEngine.ts |
| `GeminiService` | services/geminiService.ts |
| `Journal` | components/JournalInterface.tsx |
| `Bazaar` | components/BazaarInterface.tsx |
| `Chat` | components/ChatInterface.tsx |
| `Onboarding` | components/OnboardingOverlay.tsx |

`TypeCode` holds the complement map. `Text` holds the JavaScript string
operations the code relies on: `trim`, `\d`, `toString` and `parseInt`.
`Seqs` holds `filter` and `slice`. `Findings` models the energy balance
as the code writes it. Every transition is a pure function of the
session state. The inputs the code draws at run time are parameters:
- random orders and dice;
- the clock;
- the remote call's outcome;
- the JSON parser.

Facts about the code that a reader might not expect, all modelled as
written:
- `handleUnlock` has no already-unlocked check, so a second unlock of the
  same persona charges its cost again. Only the bazaar's buttons keep a
  second charge from happening (`App.UnlockNotIdempotent`,
  `Bazaar.PressKeepsInvariants`).
- `toggleActive` does not check the lock, so it can switch on a persona
  that is still locked (`App.ToggleIgnoresLock`).
- Chat replies are not filtered by author. A reply attributed to a
  locked or inactive persona, or to the user sentinel, is passed through
  (`GeminiService.RepliesNotFiltered`).
- The companion order comes from a sort with a random comparator, which
  is not a uniform shuffle. The model accepts any permutation of the
  candidates as the order.

## Model

| member | source | states |
|---|---|---|
| TypeCode.ComplementLetter | App.tsx:66-76 | each of the eight letters maps to the other letter of its own pair; any other character is left as it is |
| TypeCode.ComplementLetterInvolution | App.tsx:66-76 | complementing a character twice gives it back |
| TypeCode.Complement | App.tsx:65-76 | the shadow code has the same length, and each position holds the complement of the original letter |
| TypeCode.ComplementInvolution | App.tsx:65-76 | the shadow of the shadow is the original code |
| TypeCode.ComplementValid | App.tsx:65-76 | the shadow of a well-formed code is well-formed and differs from it in all four positions |
| Text.Trim | components/ChatInterface.tsx:32-33 | `trim` returns the part of the string left after removing whitespace at both ends: neither end of the result is whitespace, and everything removed is whitespace |
| Text.TrimEmptyIffAllSpace | components/JournalInterface.tsx:20 | a text trims to the empty string exactly when it is all whitespace, which is what the `!text.trim()` guards test |
| Text.TrimIdempotent | services/geminiService.ts:95 | trimming a trimmed string changes nothing |
| Types.ParseRoleIdValue | types.ts:2-20 | every role id's string reads back as that role id |
| Types.RoleIdValueInjective | types.ts:2-20 | the seventeen role-id strings are pairwise distinct |
| Types.DocCodeValid | types.ts:4-19 | each persona's documented code is a well-formed four-letter code |
| Types.DocCodesDistinct | types.ts:4-19 | no two personas share a documented code |
| Types.DocCodesCover | types.ts:4-19 | every well-formed code belongs to some persona |
| Types.DocShadowExists | types.ts:4-19 | on the full enum, every persona's shadow code belongs to a persona |
| Types.Lookup | App.tsx:100 | a key lookup finds the entry stored under that id exactly when one exists, and it is that entry |
| Constants.ShapeKeys | constants.ts:3-68 | the roster constant is keyed by eight role ids, none of them the user |
| Constants.CharactersShapeFacts | constants.ts:3-68 | eight entries, each stored under its own id, no key twice, no user entry, and each dimension letter exactly once |
| Constants.InitialStatsZero | constants.ts:70-72 | all eight initial counters are zero |
| App.ShowSelectionOnLoad | App.tsx:28-37 | the selection screen appears exactly when the stored flag is missing or empty, and never after the flag `true` has been stored |
| App.Awaken | App.tsx:88-90 | the named entries become unlocked and active; every other entry and the key order are kept |
| App.AwakenKeepsCost | App.tsx:88-90 | awakening keeps every entry's key and unlock cost |
| App.FlipActive | App.tsx:110-115 | only the named entry's active flag changes |
| App.HandleUnlock | App.tsx:99-108 | when the persona exists and the balance covers its cost, exactly the cost is debited and only that persona becomes unlocked and active; otherwise nothing changes; a non-negative balance stays non-negative |
| App.UnlockNotIdempotent | App.tsx:99-108 | a second unlock of the same persona charges again, so two unlocks debit twice the cost |
| App.UnlockKeepsActiveUnlocked | App.tsx:99-108 | unlocking preserves "active implies unlocked" |
| App.ToggleActive | App.tsx:110-115 | the toggle flips the named persona's flag and nothing else; a missing key throws inside the state updater, which every caller avoids by passing a roster id, and is modelled as `None` |
| App.ToggleTwice | App.tsx:110-115 | toggling twice restores the state |
| App.ToggleIgnoresLock | App.tsx:110-115 | toggling a locked, inactive persona breaks "active implies unlocked" |
| App.FreshCount | App.tsx:119 | the count of matching unliked messages is zero exactly when none matches |
| App.FreshCountUnique | App.tsx:119 | with distinct message ids, a like matches at most one message |
| App.Reward | App.tsx:123-133 | one first like raises by one each counter whose letter is in the persona's code, keeps the other counters, and adds 20 energy |
| App.RewardValidCode | App.tsx:123-133 | for a well-formed code the four code letters rise by one, their opposite letters stay, and the counter total grows by exactly four |
| App.LikeStats | App.tsx:119-133 | when several unliked messages share the id, counters still rise only once, because they are computed from the stats read at press time, while energy grows by 20 per message |
| App.HandleLike | App.tsx:117-139 | the like marks the matching unliked messages and leaves roster and journal alone; the stats change only when something matched and the author keys an entry |
| App.LikeDistinctIdsRewardsOnce | App.tsx:117-139 | with distinct message ids, a like on an unliked persona message is exactly one reward |
| App.LikeTwiceIsNoop | App.tsx:117-139 | repeating a like changes nothing: no second reward, no second increment |
| App.LikeMonotone | App.tsx:117-139 | a like keeps every message's id, author and text, raises its count by at most one, and never touches an already-liked message |
| App.Candidates | App.tsx:58-59 | the candidates are exactly the entries other than the primary and the user |
| App.FindCode | App.tsx:78 | the shadow search finds the first candidate carrying the code, and finds nothing exactly when no candidate carries it |
| App.Fill | App.tsx:82-86 | filling keeps the selection made so far as a prefix and adds only ids from the order |
| App.FillSize | App.tsx:82-86 | filling from a duplicate-free order adds no duplicates and stops at three, or when no new id is left |
| App.ShadowSeed | App.tsx:78-79 | the selection starts with the found shadow alone, or empty exactly when no candidate carries the complement code |
| App.Companions | App.tsx:58-86 | the companions are distinct candidates, exactly min(3, number of candidates) of them, led by the shadow when one was found |
| App.BootstrapCount | App.tsx:79-86 | starting from at most one candidate and filling from a permutation of the candidates gives min(3, candidates) distinct companions, all of them candidates |
| App.FindCodeFound | App.tsx:78 | a found shadow is a roster entry, neither the primary nor the user, that carries the complement code |
| App.CompanionsShadowFirst | App.tsx:78-79 | when a candidate carries the complement code, the first companion is such a candidate |
| App.HandleInitialSelect | App.tsx:51-97 | the primary and exactly the chosen companions become unlocked and active, every other entry is kept, and exactly 300 energy is added; a primary that keys no entry changes nothing |
| App.BootstrapKeepsActiveUnlocked | App.tsx:51-97 | the first-run selection preserves "active implies unlocked" |
| App.ShadowIsCompanion | App.tsx:78-86 | on a roster with distinct codes, the persona carrying the complement of the primary's code is among the companions, which the first-run selection awakens |
| Profile.OwnedWall | components/ProfileInterface.tsx:15-16 | the wall lists exactly the unlocked personas other than the user |
| Profile.InitialSelection | components/ProfileInterface.tsx:18 | nothing is selected exactly when no non-user persona is unlocked; otherwise the selection is an unlocked persona |
| Profile.DominantType | components/ProfileInterface.tsx:21-31 | the sentinel appears exactly when the counters sum to zero; otherwise the result is a well-formed code whose every letter is at least its opposite, with ties going only to E, N, T and J |
| Profile.DominantTypeCharacterized | components/ProfileInterface.tsx:21-31 | a code is the dominant type exactly when each of its letters wins its pair or ties as E, N, T or J |
| Profile.DominantTypeIgnoresEnergy | components/ProfileInterface.tsx:21-31 | vectors with equal counters have the same dominant type, whatever their energy |
| Profile.FirstLikeShowsCode | components/ProfileInterface.tsx:21-31 | from the zero vector, one like on a persona makes the profile show that persona's code |
| Profile.StatBar | components/ProfileInterface.tsx:128-139 | exactly one side of a bar is lit: the left side when its value is at least the right's |
| Profile.Bars | components/ProfileInterface.tsx:50-53 | four bars, one per dimension in order, each pairing a letter with its opposite |
| Profile.BarsAgreeWithType | components/ProfileInterface.tsx:23-53 | each bar lights the letter the type shows, except the S/N bar when S and N tie |
| Profile.BarSpan | components/ProfileInterface.tsx:120-136 | for non-negative values the fill stays inside the track, and it has zero width exactly when the two values tie |
| Profile.BarSpanRightLead | components/ProfileInterface.tsx:120-136 | when the right value leads, the fill lies left of the centre and reaches it only when the left value is zero |
| Profile.WallToggleKeepsActiveUnlocked | components/ProfileInterface.tsx:104 | a toggle offered on the wall succeeds and preserves "active implies unlocked" |
| LogicEngine.Modifier | services/logicEngine.ts:23 | the level modifier is even and non-negative from level one up |
| LogicEngine.PerformSkillCheck | services/logicEngine.ts:17-43 | the outcome echoes id and difficulty; the roll is the sum of the two dice, so within 2..12, the modifier is two per level above the first, and the total is their sum; double six is the only critical success and double one the only critical failure; otherwise the check succeeds exactly when the total reaches the difficulty |
| LogicEngine.DefaultDifficultyByLevel | services/logicEngine.ts:17-32 | at the default difficulty of 8, a persona of level four or more passes on every roll but double one, and at level one only a roll of eight or more passes |
| LogicEngine.EasierNeverWorse | services/logicEngine.ts:28-32 | lowering the difficulty never worsens the result |
| LogicEngine.HigherLevelNeverWorse | services/logicEngine.ts:23-32 | raising the level never worsens the result |
| LogicEngine.CriticalsIgnoreModifier | services/logicEngine.ts:29-30 | double six passes and double one fails at any level and difficulty |
| LogicEngine.CheckExtremes | services/logicEngine.ts:23-32 | a large modifier makes everything but double one pass; an unreachable difficulty makes everything but double six fail |
| LogicEngine.SelectCheckCharacters | services/logicEngine.ts:46-50 | the picks are a prefix of the shuffled roster, clamped the way `slice` clamps, and drawn from the roster |
| LogicEngine.SelectCheckCharactersFacts | services/logicEngine.ts:46-50 | the picks are distinct personas, min(count, roster size) of them for a non-negative count |
| LogicEngine.SelectDefaultIsHead | services/logicEngine.ts:46-50 | with the default count, a non-empty roster yields exactly one persona |
| GeminiService.ActiveRoster | services/geminiService.ts:69 | the roster sent to generation is exactly the unlocked and active personas |
| GeminiService.InstructionRoster | services/geminiService.ts:56 | the system instruction lists exactly the active personas other than the user |
| GeminiService.ContextWindow | services/geminiService.ts:70 | the window is the last min(8, history) messages, in their original order |
| GeminiService.SpeakerLabel | services/geminiService.ts:71-72 | a line is labelled with the author's name, or with the host label when the author keys no entry or has an empty name |
| GeminiService.ContextLine | services/geminiService.ts:72 | a replayed line is the label, a colon and a space, then the message text |
| GeminiService.ContextLines | services/geminiService.ts:70-73 | one labelled line per message of the window, in order |
| GeminiService.EventLine | services/geminiService.ts:76 | an empty or missing trigger gives the default event; any other trigger is used as given |
| GeminiService.BodyOr | services/geminiService.ts:95 | a missing or blank response text gives the fallback; otherwise the result is the trimmed, non-empty text |
| GeminiService.GenerateChatResponse | services/geminiService.ts:63-100 | a thrown call gives the empty round and a missing or blank text parses as the empty round; for a non-blank text the result is the parse of the trimmed text, a literal `null` included, except that a parse error gives the empty round |
| GeminiService.RepliesNotFiltered | services/geminiService.ts:14-95 | every parsed reply is returned as is, whatever its author |
| GeminiService.AnalyzeJournalEntry | services/geminiService.ts:105-138 | an analysis comes back exactly when the call returned a non-blank text that parses to a value; a throw, a blank text or `null` give nothing |
| Journal.ResponseId | components/JournalInterface.tsx:36 | a response id starts with `res-` |
| Journal.ResponseIdInjective | components/JournalInterface.tsx:36 | within one entry, response ids differ by index |
| Journal.MakeEntry | components/JournalInterface.tsx:29-44 | the entry's id is the clock reading in decimal and reads back as it; the content is the typed text; the responses correspond one-to-one and in order with the reactions, copy author, text and check flag, and start unliked with no likes |
| Journal.MakeEntryIds | components/JournalInterface.tsx:35-43 | an entry's responses have distinct ids, none of which marks a chat event |
| Journal.HandleSubmit | components/JournalInterface.tsx:19-54 | a blank text does nothing; a failed analysis raises the alert, keeps the text and adds nothing; a success appends exactly the entry built from the typed text, the analysis and the clock reading, clears the input and returns to the list; the busy flag always ends cleared |
| Journal.SubmitMatchesButton | components/JournalInterface.tsx:19-91 | with no analysis running, the handler analyses (and then alerts or appends) exactly when the submit button is enabled, that is when the text is not blank |
| Journal.SubmitOnlyAppends | components/JournalInterface.tsx:19-54 | a submission keeps every earlier entry and adds at most one |
| Journal.Insert | components/JournalInterface.tsx:107 | inserting into a newest-first list keeps it newest first and adds exactly that entry |
| Journal.DisplayOrder | components/JournalInterface.tsx:107 | the listing is a newest-first permutation of the journal |
| Journal.DisplaySortedIsIdentity | components/JournalInterface.tsx:107 | a journal that is already newest first is listed unchanged |
| Journal.DisplayIsReverseWhenClockAdvances | components/JournalInterface.tsx:107 | a journal written with an advancing clock is listed in reverse order of writing |
| Journal.ShownResponses | components/JournalInterface.tsx:124-126 | a response is shown exactly when its author is a key of the roster constant |
| Bazaar.ShopList | components/BazaarInterface.tsx:13 | the shop lists exactly the personas other than the user |
| Bazaar.TemperamentOf | components/BazaarInterface.tsx:16-19 | a well-formed code is listed by the group of its temperament |
| Bazaar.GroupsPartitionCodes | components/BazaarInterface.tsx:16-19 | a group lists a code exactly when the code is well-formed and of that group's temperament, so the groups are disjoint and cover every well-formed code |
| Bazaar.Group | components/BazaarInterface.tsx:15-20 | a group holds exactly the non-user personas whose code it lists |
| Bazaar.GroupsPartitionShop | components/BazaarInterface.tsx:15-20 | every shop persona with a well-formed code is in exactly one group; one with any other code is in none |
| Bazaar.RenderedGroups | components/BazaarInterface.tsx:44-45 | a group is drawn exactly when it is non-empty, and none is drawn twice |
| Bazaar.CardAction | components/BazaarInterface.tsx:84-98 | an owned persona is offered only the toggle, and any other persona only the unlock, enabled exactly when the balance covers the cost |
| Bazaar.UnlockButtonMatchesGuard | components/BazaarInterface.tsx:92-98 | the unlock button is enabled exactly when the session would accept the unlock |
| Bazaar.HasCardIffValidCode | components/BazaarInterface.tsx:13-54 | a persona has a card exactly when it is not the user and its code is well-formed; a persona with any other code is never drawn |
| Bazaar.Press | components/BazaarInterface.tsx:44-98 | a press exists exactly for a non-user persona with a well-formed code, which are the drawn cards; on an owned persona it is the session's toggle, and on a locked one the session's unlock when the balance covers the cost and nothing otherwise |
| Bazaar.PressKeepsInvariants | components/BazaarInterface.tsx:84-98 | through the bazaar, "active implies unlocked" and a non-negative balance are kept, and an owned persona is never charged again |
| Chat.HandleSend | components/ChatInterface.tsx:31-37 | nothing is sent while the input is blank or a reply is pending; otherwise the trimmed, non-empty text is sent and the input cleared |
| Chat.SendMatchesButton | components/ChatInterface.tsx:31-37 | pressing sends exactly when the button is enabled, and the text sent has no surrounding whitespace |
| Chat.BubbleOf | components/ChatInterface.tsx:72-91 | a message is drawn as an event line exactly when its id starts with `event-`, and as the user's own bubble exactly when it is a non-event user message |
| Chat.LikeFromChat | components/ChatInterface.tsx:126-136 | only persona bubbles can be liked, and their like is the session's like with the message's id and author; liking an unliked persona message whose author keys an entry rewards that author's letters and raises the energy; everything else leaves the session unchanged |
| Chat.OwnAndEventsNeverReward | components/ChatInterface.tsx:126-136 | liking from the chat never rewards the user's own messages or events |
| Chat.BubbleName | components/ChatInterface.tsx:78 | own bubbles are labelled with the host label, persona bubbles with the author's name when the author keys an entry |
| Chat.ActiveTags | components/ChatInterface.tsx:22-172 | the tags are the codes of the first min(5, active) active personas, in order |
| Chat.TagsAreActive | components/ChatInterface.tsx:22-172 | every tag is the code of an unlocked, active persona |
| Chat.Digits | components/ChatInterface.tsx:46 | stripping non-digits leaves only digits, never lengthens the id, and keeps exactly the digit characters of the id |
| Chat.DigitsCharacterized | components/ChatInterface.tsx:46 | a digit is kept and any other character dropped, and the strip of a concatenation is the concatenation of the strips, which determines the strip of every string |
| Chat.StyleSeed | components/ChatInterface.tsx:46 | the style seed is below 1000, and 0 for an id with no digits |
| Chat.StyleIndex | components/ChatInterface.tsx:52-53 | both style lists are indexed at the same in-range position |
| Chat.SeedOfNumericId | components/ChatInterface.tsx:46 | for a decimal id, the seed is the number modulo 1000 |
| Chat.SeedOfPrefixedId | components/ChatInterface.tsx:46 | for an id made of a digit-free prefix, such as `event-`, followed by a decimal number, the seed is that number modulo 1000 |
| Onboarding.HandleNext | components/OnboardingOverlay.tsx:33-39 | before the last page a press advances by one page; on the last page it completes and stays |
| Onboarding.ButtonLabel | components/OnboardingOverlay.tsx:68 | the button reads INITIALIZE exactly on the page whose press completes |
| Onboarding.Presses | components/OnboardingOverlay.tsx:8-39 | from page 0, the page always stays in range |
| Onboarding.PressesWalkPages | components/OnboardingOverlay.tsx:8-39 | the pages are walked in order, and the overlay completes first on the fourth press |
| Findings.AsWrittenEnergyIsNaN | constants.ts:70-72 | as written, on a roster that has codes and costs, the balance is `NaN` after the first-run selection and after any number of likes, so every unlock is refused |
| Findings.AsWrittenReloadLosesBonus | constants.ts:70-72 | as written, on a roster that has codes and costs, a reload revives the balance at `null`, losing the 300 bonus |
| Findings.CorrectedBootstrapEnergy | App.tsx:93-101 | starting from a zero balance, the first-run selection leaves exactly 300, enough to unlock any persona that costs at most that |

## Left out

- Persistence: localStorage load and save and the JSON round trip of the state (App.tsx:22-48). The load is I/O. Only the selection flag's effect (`App.ShowSelectionOnLoad`) and the `NaN` to `null` step (`Findings.Reload`) are modelled.
- Rendering, CSS classes, card decorations, avatars, animations, scrolling and their timers. These are presentation, with no contract.
- The remote generation calls, prompt texts, schemas, model names and temperatures. The call's outcome is a parameter: it throws, or it returns an optional text. `JSON.parse` is a parameter that yields a typed value, the literal `null`, or a syntax error. A parse that yields an ill-typed value is not modelled.
- The `alert` of the journal is a flag in the result.
- `Date.now()` is read several times per journal submission. The model takes one clock reading for all of them.
- Randomness is taken as parameters:
  - the dice;
  - the shuffled candidate order of the first-run selection, as any permutation of the candidates;
  - the shuffled roster of the skill check, as any permutation.

  The distribution of the random-comparator sort is not modelled.
- LogicEngine.PerformSkillCheck: the outcome has no skill name. `skillType.split(' / ')[1]` depends on a field the roster constant does not define.
- Persona records keep only the fields the logic reads. These are id, name, code, level, experience, cost and the two flags. Presentation fields are dropped.
- The roster constant gives none of code, cost, level or flags. `Constants.CharactersShape` records only the keys, ids and dimension letters it does fix. Every transition takes the roster as a parameter, and a persona's code is always a string. On the shipped constant, where the code is `undefined`, the code as written fails in three places the model does not follow:
  - the first-run selection throws at `characters[roleId].mbti.split('')` (App.tsx:65-66), before the energy update at App.tsx:93, so the selection overlay never closes;
  - a like on an unliked persona message throws at `mbti.split('')` (App.tsx:125), inside the `setMessages` updater;
  - the bazaar draws no cards, since no group lists an undefined code (`Bazaar.HasCardIffValidCode`).
- App.HandleLike: each call is modelled on the latest state. Two likes pressed before React re-renders both compute counters from the same stale `stats` (App.tsx:126), and the second then overwrites the first's increments. React's double invocation of updaters in development mode is not modelled either.
- App.Reward: only the eight letter counters are modelled. A code letter outside E, I, N, S, T, F, J, P would add a stray field to the stats object.
- The chat screen is modelled on its declared properties (`onSendMessage`, `isTyping`). App.tsx:157 passes `setMessages` instead and no send handler, so sending from the shown app would call an undefined function. No reply generation or delivery code exists in the shown files, and none is modelled.
- Journal.DisplayOrder: stability for equal timestamps holds by construction but is not stated as a contract. The in-place mutation of the journal array by `sort` is not modelled.
- Profile.BarSpan: percentages are reals. JavaScript's floating-point rounding is not modelled.
- The profile's selection state after the first render, and the CharacterCard, CharacterSelection and RoleAvatar components, are presentation.
- The socket client is not part of this model.

## Findings

| source | as written | input that shows it | evidently intended | confidence | as-written member | corrected member |
|---|---|---|---|---|---|---|
| constants.ts:70-72 with App.tsx:93, 101 | `INITIAL_STATS` has no `energy`. A fresh session's balance is `undefined`, so `prev.energy + 300` gives `NaN`, and `stats.energy >= char.cost` is then false for every persona. After a reload `NaN` is stored as `null`, which loses the 300 bonus. | a fresh session on a roster that has codes and costs, as types.ts declares: the first-run selection, then any unlock attempt (on the shipped constant, which has no codes, App.tsx:65-66 throws first) | the balance starts at 0, so the selection leaves 300 and any persona costing up to 300 can be unlocked | high, not executed | Findings.AsWrittenEnergyIsNaN, Findings.AsWrittenReloadLosesBonus | Findings.CorrectedBootstrapEnergy (with Constants.InitialStats) |
