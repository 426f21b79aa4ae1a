/** The records of the persona simulation (types.ts): role identifiers,
    personas, chat messages, journal entries and the trait vector, plus the
    persona roster keyed by role id. */
module Types {
  import opened Wrappers
  import opened Seqs
  import TypeCode

  /** The seventeen role identifiers: the user sentinel and sixteen personas
      (types.ts:2-20). */
  datatype RoleId =
    | User | Logic | Chrono | Root | Flow | Vision | Echo | Gossip | Heart
    | Judge | Garden | Stern | Bloom | Blade | Dust | Storm | Spark

  /** The string each enum member stands for. */
  function RoleIdValue(r: RoleId): string {
    match r
    case User => "user"
    case Logic => "cypher"
    case Chrono => "chrono"
    case Root => "midas"
    case Flow => "pax"
    case Vision => "aether"
    case Echo => "nocturne"
    case Gossip => "aura"
    case Heart => "eros"
    case Judge => "justicar"
    case Garden => "haven"
    case Stern => "sledge"
    case Bloom => "nurture"
    case Blade => "edge"
    case Dust => "dusk"
    case Storm => "volt"
    case Spark => "seraphina"
  }

  /** Reading an enum value back from its string, as the response schemas'
      `enum: Object.values(RoleId)` constraint does; strings outside the
      enum read as nothing. */
  function ParseRoleId(s: string): (r: Option<RoleId>)
    ensures r.Some? ==> RoleIdValue(r.value) == s
  {
    if s == "user" then Some(User)
    else if s == "cypher" then Some(Logic)
    else if s == "chrono" then Some(Chrono)
    else if s == "midas" then Some(Root)
    else if s == "pax" then Some(Flow)
    else if s == "aether" then Some(Vision)
    else if s == "nocturne" then Some(Echo)
    else if s == "aura" then Some(Gossip)
    else if s == "eros" then Some(Heart)
    else if s == "justicar" then Some(Judge)
    else if s == "haven" then Some(Garden)
    else if s == "sledge" then Some(Stern)
    else if s == "nurture" then Some(Bloom)
    else if s == "edge" then Some(Blade)
    else if s == "dusk" then Some(Dust)
    else if s == "volt" then Some(Storm)
    else if s == "seraphina" then Some(Spark)
    else None
  }

  /** Every enum value reads back as its own member. */
  lemma ParseRoleIdValue(r: RoleId)
    ensures ParseRoleId(RoleIdValue(r)) == Some(r)
  {
  }

  /** The seventeen enum values are pairwise distinct, so a role id string
      names exactly one role. */
  lemma RoleIdValueInjective(a: RoleId, b: RoleId)
    requires RoleIdValue(a) == RoleIdValue(b)
    ensures a == b
  {
    ParseRoleIdValue(a);
    ParseRoleIdValue(b);
  }

  /** The type code the enum's doc-comments give each persona
      (types.ts:4-19); the user sentinel has none. */
  function DocCode(r: RoleId): Option<string> {
    match r
    case User => None
    case Logic => Some("INTJ")
    case Chrono => Some("INTP")
    case Root => Some("ENTJ")
    case Flow => Some("ENTP")
    case Vision => Some("INFJ")
    case Echo => Some("INFP")
    case Gossip => Some("ENFJ")
    case Heart => Some("ENFP")
    case Judge => Some("ISTJ")
    case Garden => Some("ISFJ")
    case Stern => Some("ESTJ")
    case Bloom => Some("ESFJ")
    case Blade => Some("ISTP")
    case Dust => Some("ISFP")
    case Storm => Some("ESTP")
    case Spark => Some("ESFP")
  }

  /** The persona whose documented code is `code`, if any. */
  function PersonaWithCode(code: string): (r: Option<RoleId>)
    ensures r.Some? ==> DocCode(r.value) == Some(code)
  {
    if |code| != 4 then None
    else
      var w := [code[0], code[1], code[2], code[3]];
      assert w == code;
      if w == "INTJ" then Some(Logic)
      else if w == "INTP" then Some(Chrono)
      else if w == "ENTJ" then Some(Root)
      else if w == "ENTP" then Some(Flow)
      else if w == "INFJ" then Some(Vision)
      else if w == "INFP" then Some(Echo)
      else if w == "ENFJ" then Some(Gossip)
      else if w == "ENFP" then Some(Heart)
      else if w == "ISTJ" then Some(Judge)
      else if w == "ISFJ" then Some(Garden)
      else if w == "ESTJ" then Some(Stern)
      else if w == "ESFJ" then Some(Bloom)
      else if w == "ISTP" then Some(Blade)
      else if w == "ISFP" then Some(Dust)
      else if w == "ESTP" then Some(Storm)
      else if w == "ESFP" then Some(Spark)
      else None
  }

  /** Each persona's documented code is well-formed. */
  lemma DocCodeValid(r: RoleId)
    requires r != User
    ensures TypeCode.ValidCode(DocCode(r).value)
  {
    var c := DocCode(r).value;
    assert |c| == 4;
    assert TypeCode.Dimension(c[0]) == 0;
    assert TypeCode.Dimension(c[1]) == 1;
    assert TypeCode.Dimension(c[2]) == 2;
    assert TypeCode.Dimension(c[3]) == 3;
  }

  /** Each persona is the one `PersonaWithCode` finds for its documented
      code. */
  lemma PersonaWithDocCode(r: RoleId)
    requires r != User
    ensures PersonaWithCode(DocCode(r).value) == Some(r)
  {
    match r
    case Logic => case Chrono => case Root => case Flow =>
    case Vision => case Echo => case Gossip => case Heart =>
    case Judge => case Garden => case Stern => case Bloom =>
    case Blade => case Dust => case Storm => case Spark =>
  }

  /** The documented codes are pairwise distinct across the sixteen
      personas. */
  lemma DocCodesDistinct(a: RoleId, b: RoleId)
    requires a != User && b != User
    requires DocCode(a) == DocCode(b)
    ensures a == b
  {
    PersonaWithDocCode(a);
    PersonaWithDocCode(b);
  }

  /** Every well-formed code is some persona's documented code. */
  lemma DocCodesCover(code: string)
    requires TypeCode.ValidCode(code)
    ensures PersonaWithCode(code).Some?
  {
    TypeCode.ValidCodeLetters(code);
    assert code == [code[0], code[1], code[2], code[3]];
  }

  /** So over the full enum every persona's shadow is itself a persona. */
  lemma DocShadowExists(r: RoleId)
    requires r != User
    ensures PersonaWithCode(TypeCode.Complement(DocCode(r).value)).Some?
  {
    DocCodeValid(r);
    TypeCode.ComplementValid(DocCode(r).value);
    DocCodesCover(TypeCode.Complement(DocCode(r).value));
  }

  /** A persona record (types.ts:22-44) without its presentation-only fields. */
  datatype Character = Character(
    id: RoleId,
    name: string,
    mbti: string,
    level: int,
    exp: int,
    cost: int,
    unlocked: bool,
    isActive: bool)

  /** A chat message (types.ts:46-55). `isCheck` is the extra flag the
      journal attaches to its response messages
      (components/JournalInterface.tsx:42). */
  datatype Message = Message(
    id: string,
    roleId: RoleId,
    text: string,
    timestamp: int,
    likes: int,
    likedByUser: bool,
    skillActivated: Option<string>,
    skillText: Option<string>,
    isCheck: Option<bool>)

  /** A journal entry (types.ts:57-64). */
  datatype JournalEntry = JournalEntry(
    id: string,
    timestamp: int,
    content: string,
    summary: string,
    mood: string,
    responses: seq<Message>)

  /** The trait vector: eight letter counters and the energy balance
      (types.ts:66-70). */
  datatype MBTIStats = MBTIStats(
    E: int, I: int, N: int, S: int, T: int, F: int, J: int, P: int,
    energy: int)

  /** `stats[letter] || 0`: the counter a letter indexes; characters that
      are not one of the eight letters index nothing and read as 0. */
  function Counter(st: MBTIStats, c: char): int {
    match c
    case 'E' => st.E
    case 'I' => st.I
    case 'N' => st.N
    case 'S' => st.S
    case 'T' => st.T
    case 'F' => st.F
    case 'J' => st.J
    case 'P' => st.P
    case _ => 0
  }

  /** The sum of the eight counters. */
  function CounterSum(st: MBTIStats): int {
    st.E + st.I + st.N + st.S + st.T + st.F + st.J + st.P
  }

  /** Two trait vectors agree on all eight counters. */
  predicate SameCounters(a: MBTIStats, b: MBTIStats) {
    a.(energy := 0) == b.(energy := 0)
  }

  /** The ids of the personas in a sequence, in order. */
  function Ids(cs: seq<Character>): (r: seq<RoleId>)
    ensures |r| == |cs|
    ensures forall k :: 0 <= k < |cs| ==> r[k] == cs[k].id
  {
    seq(|cs|, k requires 0 <= k < |cs| => cs[k].id)
  }

  /** No role id keys two entries. */
  predicate DistinctIds(cs: seq<Character>) {
    forall i, j :: 0 <= i < j < |cs| ==> cs[i].id != cs[j].id
  }

  /** The persona record `Record<string, Character>`: entries in key
      insertion order (the order `Object.keys`/`Object.values` report),
      each keyed by its own id, so no id occurs twice. */
  type Roster = cs: seq<Character> | DistinctIds(cs) witness []

  /** `characters[id]`: the entry keyed `id`, if there is one. */
  function Lookup(roster: Roster, id: RoleId): (r: Option<Character>)
    ensures r.Some? <==> exists k :: 0 <= k < |roster| && roster[k].id == id
    ensures r.Some? ==> r.value in roster && r.value.id == id
    ensures forall k :: 0 <= k < |roster| && roster[k].id == id ==> r == Some(roster[k])
  {
    if roster == [] then None
    else if roster[0].id == id then Some(roster[0])
    else Lookup(roster[1..], id)
  }

  /** A filtered roster is still keyed by distinct ids. */
  lemma FilterKeepsDistinctIds(roster: Roster, p: Character -> bool)
    ensures DistinctIds(Filter(roster, p))
  {
    assert Distinct(roster);
    FilterDistinct(roster, p);
    var f := Filter(roster, p);
    forall i, j | 0 <= i < j < |f| ensures f[i].id != f[j].id {
      var a :| 0 <= a < |roster| && roster[a] == f[i];
      var b :| 0 <= b < |roster| && roster[b] == f[j];
      assert a != b;
    }
  }
}
