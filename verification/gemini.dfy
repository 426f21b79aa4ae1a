/** The generation service (services/geminiService.ts): which personas the
    model is told about, the conversation window and labels of the chat
    prompt, and how a reply or a failure becomes the service's result.
    The remote call is a parameter: it either throws or returns a text,
    and `JSON.parse` is a parameter too. */
module GeminiService {
  import opened Wrappers
  import opened Seqs
  import opened Text
  import opened Types

  /** How many of the latest messages the chat prompt replays. */
  const ContextSize: nat := 8
  /** The label of a message whose author keys no entry, or has no name. */
  const HostLabel: string := "宿主"
  /** The event line used when the caller gives no trigger. */
  const DefaultEvent: string := "宿主发布了新念头"

  /** `Object.values(characters).filter(c => c.unlocked && c.isActive)`. */
  function ActiveRoster(roster: Roster): (r: Roster)
    ensures forall c :: c in r <==> c in roster && c.unlocked && c.isActive
  {
    FilterKeepsDistinctIds(roster, (c: Character) => c.unlocked && c.isActive);
    Filter(roster, (c: Character) => c.unlocked && c.isActive)
  }

  /** The personas the system instruction lists: the active ones except the
      user sentinel. */
  function InstructionRoster(roster: Roster): (r: Roster)
    ensures forall c :: c in r <==> c in roster && c.unlocked && c.isActive && c.id != User
  {
    var active := ActiveRoster(roster);
    FilterKeepsDistinctIds(active, (c: Character) => c.id != User);
    Filter(active, (c: Character) => c.id != User)
  }

  /** `history.slice(-8)`: the latest messages, at most eight of them. */
  function ContextWindow(history: seq<Message>): (r: seq<Message>)
    ensures |r| == Min(ContextSize, |history|)
    ensures r == history[|history| - |r|..]
  {
    SliceFrom(history, -(ContextSize as int))
  }

  /** `char?.name || '宿主'`: the name of the entry the message's author
      keys, unless there is none or it is empty. */
  function SpeakerLabel(roster: Roster, m: Message): (r: string)
    ensures r == HostLabel <==>
      Lookup(roster, m.roleId).None? || Lookup(roster, m.roleId).value.name in {"", HostLabel}
    ensures r != HostLabel ==> Lookup(roster, m.roleId).Some? && r == Lookup(roster, m.roleId).value.name
  {
    match Lookup(roster, m.roleId)
    case None => HostLabel
    case Some(c) => if c.name == "" then HostLabel else c.name
  }

  /** One replayed line, `label: text`. */
  function ContextLine(roster: Roster, m: Message): (r: string)
    ensures StartsWith(r, SpeakerLabel(roster, m) + ": ")
    ensures r[|SpeakerLabel(roster, m)| + 2..] == m.text
  {
    SpeakerLabel(roster, m) + ": " + m.text
  }

  /** The replayed conversation: one line per message of the window. */
  function ContextLines(roster: Roster, history: seq<Message>): (r: seq<string>)
    ensures |r| == Min(ContextSize, |history|)
    ensures forall k :: 0 <= k < |r| ==>
              r[k] == ContextLine(roster, history[|history| - |r| + k])
  {
    var w := ContextWindow(history);
    seq(|w|, k requires 0 <= k < |w| => ContextLine(roster, w[k]))
  }

  /** `triggerEvent || '宿主发布了新念头'`. */
  function EventLine(trigger: Option<string>): (r: string)
    ensures |r| > 0
    ensures trigger.Some? && trigger.value != "" ==> r == trigger.value
    ensures trigger.None? || trigger.value == "" ==> r == DefaultEvent
  {
    if trigger.Some? && trigger.value != "" then trigger.value else DefaultEvent
  }

  /** What the remote call did: threw (network, key, quota, schema), or
      returned a response whose `text` may be missing. */
  datatype CallResult = Threw | Returned(text: Option<string>)

  /** What `JSON.parse` makes of a text: a syntax error (it throws), the
      literal `null`, or a value. */
  datatype Json<T> = Malformed | JsonNull | JsonValue(value: T)

  /** `response.text?.trim() || fallback`: the trimmed text, or the fallback
      when the text is missing or blank. */
  function BodyOr(text: Option<string>, fallback: string): (r: string)
    ensures text.None? || AllSpace(text.value) ==> r == fallback
    ensures text.Some? && !AllSpace(text.value) ==> r == Trim(text.value) && r != ""
  {
    if text.None? then fallback
    else
      TrimEmptyIffAllSpace(text.value);
      if Trim(text.value) == "" then fallback else Trim(text.value)
  }

  /** One reply of the chat schema. `roleId` is any enum value, the user
      sentinel included. */
  datatype Reply = Reply(roleId: RoleId, text: string,
                         skillActivated: Option<string>, skillText: Option<string>)

  /** `generateChatResponse`: the parsed reply array, or the empty round when
      the call or the parse throws. A missing or blank text parses as `[]`;
      a text that is the literal `null` comes back as null. */
  function GenerateChatResponse(call: CallResult, parse: string -> Json<seq<Reply>>): (r: Json<seq<Reply>>)
    requires parse("[]") == JsonValue([])
    ensures r != Malformed
    ensures call.Threw? ==> r == JsonValue([])
    ensures call.Returned? && (call.text.None? || AllSpace(call.text.value)) ==> r == JsonValue([])
    ensures r.JsonValue? && r.value != [] ==>
              call.Returned? && call.text.Some? && parse(Trim(call.text.value)) == r
    ensures call.Returned? && call.text.Some? && !AllSpace(call.text.value) ==>
              r == (if parse(Trim(call.text.value)).Malformed? then JsonValue([])
                    else parse(Trim(call.text.value)))
  {
    match call
    case Threw => JsonValue([])
    case Returned(text) =>
      var parsed := parse(BodyOr(text, "[]"));
      if parsed.Malformed? then JsonValue([]) else parsed
  }

  /** The service passes every parsed reply through: replies attributed to
      the user sentinel, or to personas that are locked or inactive, are
      returned as they came. */
  lemma RepliesNotFiltered(text: string, parse: string -> Json<seq<Reply>>, replies: seq<Reply>)
    requires parse("[]") == JsonValue([])
    requires !AllSpace(text) && parse(Trim(text)) == JsonValue(replies)
    ensures GenerateChatResponse(Returned(Some(text)), parse) == JsonValue(replies)
  {
    TrimEmptyIffAllSpace(text);
  }

  /** One reaction of the journal schema. */
  datatype Reaction = Reaction(roleId: RoleId, text: string, isCheck: bool)

  /** The journal analysis: summary, mood tag and reactions. */
  datatype Analysis = Analysis(summary: string, mood: string, reactions: seq<Reaction>)

  /** `analyzeJournalEntry`: the parsed analysis, or null when the call or
      the parse throws, or the text is missing, blank or the literal
      `null`. */
  function AnalyzeJournalEntry(call: CallResult, parse: string -> Json<Analysis>): (r: Option<Analysis>)
    requires parse("null") == JsonNull
    ensures call.Threw? ==> r.None?
    ensures call.Returned? && (call.text.None? || AllSpace(call.text.value)) ==> r.None?
    ensures r.Some? <==>
              call.Returned? && call.text.Some? && !AllSpace(call.text.value)
              && parse(Trim(call.text.value)).JsonValue?
    ensures r.Some? ==> parse(Trim(call.text.value)) == JsonValue(r.value)
  {
    match call
    case Threw => None
    case Returned(text) =>
      match parse(BodyOr(text, "null"))
      case JsonValue(a) => Some(a)
      case _ => None
  }
}
