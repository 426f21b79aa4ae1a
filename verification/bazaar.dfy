/** The bazaar screen (components/BazaarInterface.tsx): every persona other
    than the user, grouped by temperament, each card offering either the
    activation toggle (owned) or the cost-gated unlock (not owned). */
module Bazaar {
  import opened Wrappers
  import opened Seqs
  import opened Types
  import TypeCode
  import App

  /** The shop: every entry but the user sentinel, in key order. */
  function ShopList(roster: Roster): (r: Roster)
    ensures forall c :: c in r <==> c in roster && c.id != User
  {
    FilterKeepsDistinctIds(roster, (c: Character) => c.id != User);
    Filter(roster, (c: Character) => c.id != User)
  }

  /** The four temperament groups, in display order. */
  datatype Temperament = Analysts | Diplomats | Sentinels | Explorers

  /** The four codes each group lists (BazaarInterface.tsx:16-19). */
  function GroupCodes(t: Temperament): seq<string> {
    match t
    case Analysts => ["INTJ", "INTP", "ENTJ", "ENTP"]
    case Diplomats => ["INFJ", "INFP", "ENFJ", "ENFP"]
    case Sentinels => ["ISTJ", "ISFJ", "ESTJ", "ESFJ"]
    case Explorers => ["ISTP", "ISFP", "ESTP", "ESFP"]
  }

  /** The groups in display order. */
  const AllTemperaments: seq<Temperament> := [Analysts, Diplomats, Sentinels, Explorers]

  /** Each group is listed once. */
  lemma AllTemperamentsListed()
    ensures forall t :: t in AllTemperaments
    ensures Distinct(AllTemperaments)
  {
    forall t ensures t in AllTemperaments {
      match t
      case Analysts => assert AllTemperaments[0] == t;
      case Diplomats => assert AllTemperaments[1] == t;
      case Sentinels => assert AllTemperaments[2] == t;
      case Explorers => assert AllTemperaments[3] == t;
    }
  }

  /** The temperament a well-formed code belongs to: NT, NF, SJ or SP. */
  function TemperamentOf(code: string): (t: Temperament)
    requires TypeCode.ValidCode(code)
    ensures code in GroupCodes(t)
  {
    TypeCode.ValidCodeLetters(code);
    assert code == [code[0], code[1], code[2], code[3]];
    if code[1] == 'N' then (if code[2] == 'T' then Analysts else Diplomats)
    else (if code[3] == 'J' then Sentinels else Explorers)
  }

  /** The groups partition the well-formed codes: a code is listed by a
      group exactly when it is well-formed and of that temperament. */
  lemma GroupsPartitionCodes(code: string, t: Temperament)
    ensures code in GroupCodes(t) <==> TypeCode.ValidCode(code) && TemperamentOf(code) == t
  {
    if code in GroupCodes(t) {
      ListedCodeValid(code, t);
    }
  }

  /** Every code a group lists is well-formed and of that group's
      temperament. */
  lemma ListedCodeValid(code: string, t: Temperament)
    requires code in GroupCodes(t)
    ensures TypeCode.ValidCode(code) && TemperamentOf(code) == t
  {
    var k :| 0 <= k < 4 && GroupCodes(t)[k] == code;
    match t
    case Analysts =>
      assert code == "INTJ" || code == "INTP" || code == "ENTJ" || code == "ENTP";
      ValidFromLetters(code);
    case Diplomats =>
      assert code == "INFJ" || code == "INFP" || code == "ENFJ" || code == "ENFP";
      ValidFromLetters(code);
    case Sentinels =>
      assert code == "ISTJ" || code == "ISFJ" || code == "ESTJ" || code == "ESFJ";
      ValidFromLetters(code);
    case Explorers =>
      assert code == "ISTP" || code == "ISFP" || code == "ESTP" || code == "ESFP";
      ValidFromLetters(code);
  }

  /** A four-letter string spelled from one letter of each pair, in order,
      is a well-formed code. */
  lemma ValidFromLetters(code: string)
    requires |code| == 4
    requires code[0] == 'E' || code[0] == 'I'
    requires code[1] == 'N' || code[1] == 'S'
    requires code[2] == 'T' || code[2] == 'F'
    requires code[3] == 'J' || code[3] == 'P'
    ensures TypeCode.ValidCode(code)
  {
    assert TypeCode.Dimension(code[0]) == 0 && TypeCode.Dimension(code[1]) == 1;
    assert TypeCode.Dimension(code[2]) == 2 && TypeCode.Dimension(code[3]) == 3;
  }

  /** The cards of one group: shop entries whose code the group lists. */
  function Group(roster: Roster, t: Temperament): (r: Roster)
    ensures forall c :: c in r <==> c in roster && c.id != User && c.mbti in GroupCodes(t)
  {
    var shop := ShopList(roster);
    FilterKeepsDistinctIds(shop, (c: Character) => c.mbti in GroupCodes(t));
    Filter(shop, (c: Character) => c.mbti in GroupCodes(t))
  }

  /** Every shop entry with a well-formed code appears in exactly one group;
      an entry with any other code appears in none. */
  lemma GroupsPartitionShop(roster: Roster, c: Character, t: Temperament)
    requires c in ShopList(roster)
    ensures c in Group(roster, t) <==> TypeCode.ValidCode(c.mbti) && TemperamentOf(c.mbti) == t
  {
    GroupsPartitionCodes(c.mbti, t);
  }

  /** The groups that are drawn: the non-empty ones, in display order. */
  function RenderedGroups(roster: Roster): (r: seq<Temperament>)
    ensures forall t :: t in r <==> Group(roster, t) != []
    ensures Distinct(r)
  {
    AllTemperamentsListed();
    FilterDistinct(AllTemperaments, (t: Temperament) => Group(roster, t) != []);
    Filter(AllTemperaments, (t: Temperament) => Group(roster, t) != [])
  }

  /** The button a card shows. */
  datatype CardButton = ToggleButton | UnlockButton(enabled: bool)

  /** Owned personas get the toggle; others get the unlock button, disabled
      while the balance is below the cost. */
  function CardAction(c: Character, energy: int): (b: CardButton)
    ensures b.ToggleButton? <==> c.unlocked
    ensures b.UnlockButton? ==> (b.enabled <==> energy >= c.cost)
  {
    if c.unlocked then ToggleButton else UnlockButton(!(energy < c.cost))
  }

  /** The unlock button is enabled exactly when the session would accept
      the unlock. */
  lemma UnlockButtonMatchesGuard(s: App.AppState, c: Character)
    requires c in s.roster && !c.unlocked
    ensures CardAction(c, s.stats.energy) == UnlockButton(App.CanUnlock(s, c.id))
  {
    var k :| 0 <= k < |s.roster| && s.roster[k] == c;
  }

  /** Whether a card for `c` is drawn: it is in the shop and one of the
      temperament groups lists its code. */
  predicate HasCard(roster: Roster, c: Character) {
    exists t :: c in Group(roster, t)
  }

  /** A shop entry has a card exactly when its code is well-formed; an entry
      whose code no group lists is never drawn. */
  lemma HasCardIffValidCode(roster: Roster, c: Character)
    requires c in roster
    ensures HasCard(roster, c) <==> c.id != User && TypeCode.ValidCode(c.mbti)
  {
    if c.id != User && TypeCode.ValidCode(c.mbti) {
      assert c in Group(roster, TemperamentOf(c.mbti));
    }
    if HasCard(roster, c) {
      var t :| c in Group(roster, t);
      GroupsPartitionCodes(c.mbti, t);
    }
  }

  /** Pressing the button on the card of `id`: the toggle for an owned
      persona, the unlock when it is enabled, nothing when it is disabled;
      `None` when no card shows `id`, which by `HasCardIffValidCode` is when
      `id` is the user, is missing, or has a code no group lists. */
  function Press(s: App.AppState, id: RoleId): (r: Option<App.AppState>)
    ensures r.Some? <==> id != User && Lookup(s.roster, id).Some? && TypeCode.ValidCode(Lookup(s.roster, id).value.mbti)
    ensures r.Some? && Lookup(s.roster, id).value.unlocked ==>
              Some(r.value) == App.ToggleActive(s, id)
    ensures r.Some? && !Lookup(s.roster, id).value.unlocked ==>
              r.value == (if s.stats.energy >= Lookup(s.roster, id).value.cost
                          then App.HandleUnlock(s, id) else s)
  {
    match Lookup(s.roster, id)
    case None => None
    case Some(c) =>
      if id == User || !TypeCode.ValidCode(c.mbti) then None
      else
        match CardAction(c, s.stats.energy)
        case ToggleButton => App.ToggleActive(s, id)
        case UnlockButton(enabled) => if enabled then Some(App.HandleUnlock(s, id)) else Some(s)
  }

  /** Through the bazaar's buttons "active implies unlocked" is kept, the
      balance never goes negative, and a persona is charged at most once:
      once owned, its card no longer offers the unlock. */
  lemma PressKeepsInvariants(s: App.AppState, id: RoleId)
    requires App.ActiveImpliesUnlocked(s.roster) && s.stats.energy >= 0
    requires Press(s, id).Some?
    ensures App.ActiveImpliesUnlocked(Press(s, id).value.roster)
    ensures Press(s, id).value.stats.energy >= 0
    ensures Lookup(s.roster, id).value.unlocked ==> Press(s, id).value.stats == s.stats
  {
    var c := Lookup(s.roster, id).value;
    var k :| 0 <= k < |s.roster| && s.roster[k].id == id;
    if !c.unlocked {
      App.UnlockKeepsActiveUnlocked(s, id);
    }
  }
}
