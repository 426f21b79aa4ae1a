/** The dice check (services/logicEngine.ts): a 2d6 roll plus a level
    modifier against a difficulty, with double six and double one as
    critical outcomes; and the random pick of personas for a check. The
    dice and the shuffle are parameters. */
module LogicEngine {
  import opened Seqs
  import opened Types

  datatype CheckResult = CriticalSuccess | Success | Failure | CriticalFailure

  /** The four results ranked from worst to best. */
  function Rank(r: CheckResult): nat {
    match r
    case CriticalFailure => 0
    case Failure => 1
    case Success => 2
    case CriticalSuccess => 3
  }

  /** Whether a result counts as passing the check. */
  predicate Passed(r: CheckResult) {
    r == Success || r == CriticalSuccess
  }

  /** The outcome of one check; the skill name is not modelled. */
  datatype RollOutcome = RollOutcome(
    roleId: RoleId,
    difficulty: int,
    roll: int,
    modifier: int,
    total: int,
    result: CheckResult)

  /** The difficulty a check uses when the caller gives none. */
  const DefaultDifficulty: int := 8

  /** A face of one six-sided die. */
  predicate IsFace(d: int) {
    1 <= d <= 6
  }

  /** The level modifier: two points per level above the first. */
  function Modifier(level: int): (m: int)
    ensures level >= 1 ==> m >= 0
    ensures m % 2 == 0
  {
    (level - 1) * 2
  }

  /** `performSkillCheck(character, difficulty)` with the two dice given.
      Double six is a critical success and double one a critical failure
      whatever the total; otherwise the check passes when roll plus
      modifier reaches the difficulty. */
  function PerformSkillCheck(c: Character, die1: int, die2: int, difficulty: int): (o: RollOutcome)
    requires IsFace(die1) && IsFace(die2)
    ensures o.roleId == c.id && o.difficulty == difficulty
    ensures o.roll == die1 + die2 && o.modifier == Modifier(c.level)
    ensures 2 <= o.roll <= 12 && o.total == o.roll + o.modifier
    ensures o.result == CriticalSuccess <==> die1 == 6 && die2 == 6
    ensures o.result == CriticalFailure <==> die1 == 1 && die2 == 1
    ensures o.result == Success <==> !(die1 == die2 && (die1 == 1 || die1 == 6)) && o.total >= difficulty
  {
    var roll := die1 + die2;
    var modifier := (c.level - 1) * 2;
    var total := roll + modifier;
    var result :=
      if die1 == 6 && die2 == 6 then CriticalSuccess
      else if die1 == 1 && die2 == 1 then CriticalFailure
      else if total >= difficulty then Success
      else Failure;
    RollOutcome(c.id, difficulty, roll, modifier, total, result)
  }

  /** A lower difficulty never gives a worse result for the same dice. */
  lemma EasierNeverWorse(c: Character, die1: int, die2: int, d1: int, d2: int)
    requires IsFace(die1) && IsFace(die2) && d1 <= d2
    ensures Rank(PerformSkillCheck(c, die1, die2, d1).result)
            >= Rank(PerformSkillCheck(c, die1, die2, d2).result)
  {
  }

  /** A higher level never gives a worse result for the same dice. */
  lemma HigherLevelNeverWorse(c: Character, level: int, die1: int, die2: int, difficulty: int)
    requires IsFace(die1) && IsFace(die2) && c.level <= level
    ensures Rank(PerformSkillCheck(c.(level := level), die1, die2, difficulty).result)
            >= Rank(PerformSkillCheck(c, die1, die2, difficulty).result)
  {
  }

  /** Critical results depend on the dice alone: double six passes and
      double one fails at any level and difficulty. */
  lemma CriticalsIgnoreModifier(c: Character, die: int, difficulty: int)
    requires die == 1 || die == 6
    ensures Passed(PerformSkillCheck(c, die, die, difficulty).result) <==> die == 6
  {
  }

  /** At the default difficulty a persona of level four or more passes on
      every roll but double one, while at level one only a roll of eight
      or more passes. */
  lemma DefaultDifficultyByLevel(c: Character, die1: int, die2: int)
    requires IsFace(die1) && IsFace(die2)
    ensures c.level >= 4 ==>
              (Passed(PerformSkillCheck(c, die1, die2, DefaultDifficulty).result) <==> !(die1 == 1 && die2 == 1))
    ensures c.level == 1 ==>
              (Passed(PerformSkillCheck(c, die1, die2, DefaultDifficulty).result) <==> die1 + die2 >= 8)
  {
    CheckExtremes(c, die1, die2, DefaultDifficulty);
  }

  /** Once the modifier covers the difficulty less the lowest roll, every
      roll but double one passes; once even the highest roll cannot reach
      it, only double six passes. */
  lemma CheckExtremes(c: Character, die1: int, die2: int, difficulty: int)
    requires IsFace(die1) && IsFace(die2)
    ensures Modifier(c.level) + 2 >= difficulty ==>
              (Passed(PerformSkillCheck(c, die1, die2, difficulty).result) <==> !(die1 == 1 && die2 == 1))
    ensures Modifier(c.level) + 12 < difficulty ==>
              (Passed(PerformSkillCheck(c, die1, die2, difficulty).result) <==> die1 == 6 && die2 == 6)
  {
  }

  /** `selectCheckCharacters(characters, count)` with the shuffled order
      given: the first `count` entries of the shuffled roster, with the
      clamping of `slice(0, count)`, so a negative count drops that many
      entries from the end. Nothing is filtered: locked, inactive and user
      entries can be picked. */
  function SelectCheckCharacters(roster: Roster, shuffled: seq<Character>, count: int): (r: seq<Character>)
    requires multiset(shuffled) == multiset(roster)
    ensures |r| == JsIndex(count, |roster|)
    ensures |r| <= |shuffled| && r == shuffled[..|r|]
    ensures forall c :: c in r ==> c in roster
  {
    assert |shuffled| == |multiset(shuffled)| == |roster|;
    assert forall c :: c in shuffled ==> c in roster by {
      forall c | c in shuffled ensures c in roster {
        assert c in multiset(shuffled);
      }
    }
    Slice(shuffled, 0, count)
  }

  /** The picks are distinct personas, and how many there are. */
  lemma SelectCheckCharactersFacts(roster: Roster, shuffled: seq<Character>, count: int)
    requires multiset(shuffled) == multiset(roster)
    ensures var r := SelectCheckCharacters(roster, shuffled, count);
            && DistinctIds(r)
            && (count >= 0 ==> |r| == Min(count, |roster|))
            && (count < 0 ==> |r| == if |roster| + count > 0 then |roster| + count else 0)
  {
    var r := SelectCheckCharacters(roster, shuffled, count);
    assert Distinct(roster);
    PermutationDistinct(roster, shuffled);
    forall i, j | 0 <= i < j < |r| ensures r[i].id != r[j].id {
      assert r[i] == shuffled[i] && r[j] == shuffled[j];
      assert r[i] in roster && r[j] in roster;
      var a :| 0 <= a < |roster| && roster[a] == r[i];
      var b :| 0 <= b < |roster| && roster[b] == r[j];
      assert a != b;
    }
  }

  /** With the default count of one, a non-empty roster yields exactly the
      head of the shuffle. */
  lemma SelectDefaultIsHead(roster: Roster, shuffled: seq<Character>)
    requires multiset(shuffled) == multiset(roster) && |roster| > 0
    ensures SelectCheckCharacters(roster, shuffled, 1) == [shuffled[0]]
  {
  }
}
