/** The chat screen (components/ChatInterface.tsx), on its declared
    properties: the send guard, how a message is rendered (event line, own
    bubble or persona bubble with a like button), the tags of the active
    personas, and the bubble style picked from the message id. */
module Chat {
  import opened Wrappers
  import opened Seqs
  import opened Text
  import opened Types
  import App
  import GeminiService

  /** How many persona tags the input bar shows. */
  const TagLimit: nat := 5
  /** How many trailing digits of the id seed the bubble style. */
  const SeedDigits: nat := 3
  /** The number of rotation variants, and of border variants. */
  const StyleVariants: nat := 4

  /** What pressing send does: the text handed on, if any, and the input
      left in the box. */
  datatype Send = Send(sent: Option<string>, input: string)

  /** The send button is disabled while the input is blank or a reply is
      being typed. */
  predicate SendDisabled(input: string, isTyping: bool) {
    AllSpace(input) || isTyping
  }

  /** `handleSend`: a blank input or a pending reply does nothing; otherwise
      the trimmed input is sent and the box cleared. */
  function HandleSend(input: string, isTyping: bool): (r: Send)
    ensures r.sent.Some? <==> !SendDisabled(input, isTyping)
    ensures r.sent.None? ==> r.input == input
    ensures r.sent.Some? ==> r.input == "" && r.sent.value == Trim(input) && r.sent.value != ""
  {
    TrimEmptyIffAllSpace(input);
    if Trim(input) == "" || isTyping then Send(None, input)
    else Send(Some(Trim(input)), "")
  }

  /** The button and the handler agree: pressing sends exactly when the
      button is enabled, and what is sent has no surrounding whitespace. */
  lemma SendMatchesButton(input: string, isTyping: bool)
    ensures HandleSend(input, isTyping).sent.Some? <==> !SendDisabled(input, isTyping)
    ensures HandleSend(input, isTyping).sent.Some? ==>
              var t := HandleSend(input, isTyping).sent.value;
              !IsSpace(t[0]) && !IsSpace(t[|t| - 1]) && Trim(t) == t
  {
    TrimIdempotent(input);
  }

  /** Messages whose id starts with `event-` are system events. */
  predicate IsEvent(m: Message) {
    StartsWith(m.id, "event-")
  }

  /** The three ways a message is drawn. */
  datatype Bubble = EventLine | OwnBubble | PersonaBubble

  /** Events are drawn as a centred line whoever the author; otherwise the
      user's messages are own bubbles and everything else persona bubbles. */
  function BubbleOf(m: Message): (b: Bubble)
    ensures b == EventLine <==> IsEvent(m)
    ensures b == OwnBubble <==> !IsEvent(m) && m.roleId == User
  {
    if IsEvent(m) then EventLine
    else if m.roleId == User then OwnBubble
    else PersonaBubble
  }

  /** Only persona bubbles carry the like button. */
  predicate ShowsLikeButton(m: Message) {
    BubbleOf(m) == PersonaBubble
  }

  /** Pressing a message's like button, when it has one, runs the session's
      like with that message's id and author. */
  function LikeFromChat(s: App.AppState, m: Message): (r: App.AppState)
    ensures !ShowsLikeButton(m) ==> r == s
    ensures ShowsLikeButton(m) ==> r == App.HandleLike(s, m.id, m.roleId)
    ensures ShowsLikeButton(m) ==> r.messages == App.MarkLiked(s.messages, m.id)
    ensures ShowsLikeButton(m) && m in s.messages && !m.likedByUser && Lookup(s.roster, m.roleId).Some? ==>
              && SameCounters(r.stats, App.Reward(s.stats, Lookup(s.roster, m.roleId).value.mbti))
              && r.stats.energy > s.stats.energy
  {
    if ShowsLikeButton(m) then App.HandleLike(s, m.id, m.roleId) else s
  }

  /** The user's own messages and system events can never be liked from the
      chat, so they never move the trait vector. */
  lemma OwnAndEventsNeverReward(s: App.AppState, m: Message)
    requires m.roleId == User || IsEvent(m)
    ensures LikeFromChat(s, m) == s
  {
  }

  /** The name above a bubble: `宿主` on own bubbles, the author's entry's
      name on persona bubbles (nothing when the author keys no entry). */
  function BubbleName(roster: Roster, m: Message): (r: Option<string>)
    requires !IsEvent(m)
    ensures m.roleId == User ==> r == Some(GeminiService.HostLabel)
    ensures m.roleId != User ==>
              (r.Some? <==> Lookup(roster, m.roleId).Some?) &&
              (r.Some? ==> r.value == Lookup(roster, m.roleId).value.name)
  {
    if m.roleId == User then Some(GeminiService.HostLabel)
    else match Lookup(roster, m.roleId)
      case None => None
      case Some(c) => Some(c.name)
  }

  /** The type-code tags over the input: the codes of the first five
      active personas, in key order. */
  function ActiveTags(roster: Roster): (r: seq<string>)
    ensures |r| == Min(TagLimit, |GeminiService.ActiveRoster(roster)|)
    ensures forall k :: 0 <= k < |r| ==> r[k] == GeminiService.ActiveRoster(roster)[k].mbti
  {
    var shown := Slice(GeminiService.ActiveRoster(roster), 0, TagLimit);
    seq(|shown|, k requires 0 <= k < |shown| => shown[k].mbti)
  }

  /** Every tag is the code of an unlocked, active persona. */
  lemma TagsAreActive(roster: Roster, k: int)
    requires 0 <= k < |ActiveTags(roster)|
    ensures exists c :: c in roster && c.unlocked && c.isActive && c.mbti == ActiveTags(roster)[k]
  {
    var active := GeminiService.ActiveRoster(roster);
    assert active[k] in active;
  }

  /** `seed.replace(/\D/g, '')`: the ASCII digits of a string, in order. */
  function Digits(s: string): (r: string)
    ensures AllDigits(r) && |r| <= |s|
    ensures forall c :: c in r <==> c in s && IsDigit(c)
  {
    Filter(s, (c: char) => IsDigit(c))
  }

  /** The digit strip works character by character: a digit is kept, any
      other character dropped, and the strip of a concatenation is the
      concatenation of the strips. Together these determine `Digits` on
      every string. */
  lemma DigitsCharacterized(a: string, b: string, c: char)
    ensures Digits([c]) == if IsDigit(c) then [c] else []
    ensures Digits(a + b) == Digits(a) + Digits(b)
  {
    FilterAppend(a, b, (c: char) => IsDigit(c));
    assert [c][1..] == [];
  }

  /** A string with no digits strips to nothing. */
  lemma {:induction false} DigitsOfDigitFree(p: string)
    requires forall k :: 0 <= k < |p| ==> !IsDigit(p[k])
    ensures Digits(p) == []
  {
    if p != [] {
      DigitsOfDigitFree(p[1..]);
    }
  }

  /** The style seed of a bubble: the number its id's last three digits
      spell, or 0 when the id has no digits. */
  function StyleSeed(id: string): (n: nat)
    ensures n < 1000
    ensures Digits(id) == [] ==> n == 0
  {
    var d := Digits(id);
    var tail := SliceFrom(d, -(SeedDigits as int));
    assert AllDigits(tail);
    if tail == [] then 0
    else
      assert tail == d[|d| - |tail|..];
      assert |tail| <= 3;
      SeedBound(tail);
      ParseDecimal(tail)
  }

  /** A run of at most three digits reads as less than 1000. */
  lemma {:induction false} SeedBound(s: string)
    requires AllDigits(s) && |s| <= 3
    ensures ParseDecimal(s) < Pow10(|s|) <= 1000
  {
    if s != [] {
      SeedBound(s[..|s| - 1]);
    }
  }

  /** The rotation and the border variant both use the seed modulo four, so
      they always come from the same position of their lists. */
  function StyleIndex(id: string): (k: nat)
    ensures k < StyleVariants
  {
    StyleSeed(id) % StyleVariants
  }

  /** For an id that is a decimal number, the seed is that number modulo
      1000. */
  lemma SeedOfNumericId(n: nat)
    ensures StyleSeed(NatToString(n)) == n % 1000
  {
    var s := NatToString(n);
    FilterAll(s, (c: char) => IsDigit(c));
    assert Digits(s) == s;
    if |s| >= 3 {
      SeedOfLongId(n);
    } else {
      SeedOfShortId(n);
    }
  }

  /** For an id made of a digit-free prefix, such as `event-`, and a
      decimal number, the seed is that number modulo 1000. */
  lemma SeedOfPrefixedId(p: string, n: nat)
    requires forall k :: 0 <= k < |p| ==> !IsDigit(p[k])
    ensures StyleSeed(p + NatToString(n)) == n % 1000
  {
    var s := NatToString(n);
    DigitsCharacterized(p, s, ' ');
    DigitsOfDigitFree(p);
    assert Digits(p + s) == Digits(s);
    SeedOfNumericId(n);
  }

  /** Three or more digits: the last three read as `n mod 1000`. */
  lemma SeedOfLongId(n: nat)
    requires |NatToString(n)| >= 3
    ensures var s := NatToString(n); ParseDecimal(s[|s| - 3..]) == n % 1000
  {
    ParseSuffix(n, 3);
    assert Pow10(3) == 1000;
  }

  /** Fewer than three digits: the whole rendering reads as `n`, which is
      below 100. */
  lemma SeedOfShortId(n: nat)
    requires |NatToString(n)| < 3
    ensures ParseDecimal(NatToString(n)) == n % 1000
  {
    ParseNatToString(n);
    NatToStringBound(n);
    var len := |NatToString(n)|;
    assert Pow10(len) <= 100 by {
      if len == 1 { assert Pow10(1) == 10; } else { assert Pow10(2) == 100; }
    }
  }
}
