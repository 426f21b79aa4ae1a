/** The profile screen (components/ProfileInterface.tsx): the wall of owned
    personas, the dominant type the trait vector spells out and the four
    balance bars. */
module Profile {
  import opened Wrappers
  import opened Seqs
  import opened Types
  import TypeCode
  import App

  /** The label shown while every counter is zero. */
  const Unawakened: string := "尚未觉醒"

  /** The owned wall: unlocked personas other than the user, in key order. */
  function OwnedWall(roster: Roster): (r: Roster)
    ensures forall c :: c in r <==> c in roster && c.id != User && c.unlocked
  {
    FilterKeepsDistinctIds(roster, (c: Character) => c.id != User && c.unlocked);
    Filter(roster, (c: Character) => c.id != User && c.unlocked)
  }

  /** The initially selected persona: the first on the wall, or none. */
  function InitialSelection(roster: Roster): (r: Option<RoleId>)
    ensures r.None? <==> forall c :: c in roster ==> c.id == User || !c.unlocked
    ensures r.Some? ==> Lookup(roster, r.value).Some? && Lookup(roster, r.value).value.unlocked
                        && r.value != User
  {
    var wall := OwnedWall(roster);
    if wall == [] then None
    else
      assert wall[0] in wall;
      var k :| 0 <= k < |roster| && roster[k] == wall[0];
      Some(wall[0].id)
  }

  /** The letter a trait vector leans to in one dimension: the first letter
      of the pair when its counter is at least the second's. */
  function Lean(a: int, b: int, first: char, second: char): char {
    if a >= b then first else second
  }

  /** `calculateUserMBTI`: the sentinel while all eight counters are zero,
      otherwise one letter per dimension, each the one whose counter is
      larger, ties going to E, N, T and J. */
  function DominantType(st: MBTIStats): (r: string)
    ensures CounterSum(st) == 0 ==> r == Unawakened
    ensures CounterSum(st) != 0 ==>
      && TypeCode.ValidCode(r)
      && (forall k :: 0 <= k < 4 ==>
            Counter(st, r[k]) >= Counter(st, TypeCode.ComplementLetter(r[k])))
      && (forall k :: 0 <= k < 4 && Counter(st, r[k]) == Counter(st, TypeCode.ComplementLetter(r[k])) ==>
            r[k] in "ENTJ")
  {
    if CounterSum(st) == 0 then Unawakened
    else
      [Lean(st.E, st.I, 'E', 'I'), Lean(st.N, st.S, 'N', 'S'),
       Lean(st.T, st.F, 'T', 'F'), Lean(st.J, st.P, 'J', 'P')]
  }

  /** The dominant type is unambiguous: a well-formed code is the dominant
      type of a non-zero trait vector exactly when each of its letters wins
      or ties its dimension, ties only going to E, N, T and J. */
  lemma DominantTypeCharacterized(st: MBTIStats, code: string)
    requires CounterSum(st) != 0 && TypeCode.ValidCode(code)
    ensures DominantType(st) == code <==>
      forall k :: 0 <= k < 4 ==>
        (Counter(st, code[k]) > Counter(st, TypeCode.ComplementLetter(code[k]))) ||
        (Counter(st, code[k]) == Counter(st, TypeCode.ComplementLetter(code[k])) && code[k] in "ENTJ")
  {
    TypeCode.ValidCodeLetters(code);
    var r := DominantType(st);
    if forall k :: 0 <= k < 4 ==>
        (Counter(st, code[k]) > Counter(st, TypeCode.ComplementLetter(code[k]))) ||
        (Counter(st, code[k]) == Counter(st, TypeCode.ComplementLetter(code[k])) && code[k] in "ENTJ") {
      assert code[0] == r[0] && code[1] == r[1] && code[2] == r[2] && code[3] == r[3];
      assert code == r;
    }
  }

  /** The energy balance plays no part in the dominant type. */
  lemma DominantTypeIgnoresEnergy(a: MBTIStats, b: MBTIStats)
    requires SameCounters(a, b)
    ensures DominantType(a) == DominantType(b)
  {
    assert a.E == b.E && a.I == b.I && a.N == b.N && a.S == b.S;
    assert a.T == b.T && a.F == b.F && a.J == b.J && a.P == b.P;
  }

  /** From the zero vector, one first like on a persona makes the profile
      show exactly that persona's code. */
  lemma FirstLikeShowsCode(st: MBTIStats, code: string)
    requires CounterSum(st) == 0
    requires forall c :: TypeCode.IsLetter(c) ==> Counter(st, c) == 0
    requires TypeCode.ValidCode(code)
    ensures DominantType(App.Reward(st, code)) == code
  {
    var r := App.Reward(st, code);
    App.RewardValidCode(st, code);
    TypeCode.ValidCodeLetters(code);
    forall k | 0 <= k < 4
      ensures Counter(r, code[k]) > Counter(r, TypeCode.ComplementLetter(code[k]))
    {
      assert TypeCode.IsLetter(code[k]);
    }
    DominantTypeCharacterized(r, code);
  }

  /** The highlight of one balance bar: the left letter is lit when its value
      is at least the right's, the right letter when it is strictly larger. */
  datatype Bar = Bar(left: char, right: char, leftLit: bool, rightLit: bool)

  function StatBar(left: char, right: char, leftVal: int, rightVal: int): (b: Bar)
    ensures b.left == left && b.right == right
    ensures b.leftLit != b.rightLit
    ensures b.leftLit <==> leftVal >= rightVal
  {
    Bar(left, right, leftVal >= rightVal, rightVal > leftVal)
  }

  /** The letter a bar lights. */
  function LitLetter(b: Bar): char {
    if b.leftLit then b.left else b.right
  }

  /** The four bars in screen order. The perception bar puts S on the left,
      the other three put the type code's first-listed letter there. */
  function Bars(st: MBTIStats): (r: seq<Bar>)
    ensures |r| == 4
    ensures forall k :: 0 <= k < 4 ==> r[k].right == TypeCode.ComplementLetter(r[k].left)
                                       && TypeCode.Dimension(r[k].left) == k
  {
    [StatBar('E', 'I', st.E, st.I), StatBar('S', 'N', st.S, st.N),
     StatBar('T', 'F', st.T, st.F), StatBar('J', 'P', st.J, st.P)]
  }

  /** Each bar lights the letter the dominant type shows for its dimension,
      except the perception bar when S and N tie: the label then shows N
      while the bar lights S. */
  lemma BarsAgreeWithType(st: MBTIStats, k: int)
    requires CounterSum(st) != 0 && 0 <= k < 4
    ensures LitLetter(Bars(st)[k]) == DominantType(st)[k] <==> (k != 1 || st.S != st.N)
  {
  }

  /** The horizontal extent of a bar's fill, in percent of the track:
      `total = leftVal + rightVal || 1`, the fill starts at the centre when
      the left value leads and otherwise at `50 - right/total*50`, and is
      `|left - right|/total*50` wide. */
  function BarSpan(leftVal: int, rightVal: int): (span: (real, real))
    ensures leftVal >= 0 && rightVal >= 0 ==>
      0.0 <= span.0 && 0.0 <= span.1 && span.0 + span.1 <= 100.0
    ensures span.1 == 0.0 <==> leftVal == rightVal
  {
    var total := if leftVal + rightVal == 0 then 1 else leftVal + rightVal;
    var diff := if leftVal >= rightVal then leftVal - rightVal else rightVal - leftVal;
    var start := if leftVal >= rightVal then 50.0 else 50.0 - (rightVal as real) / (total as real) * 50.0;
    var width := (diff as real) / (total as real) * 50.0;
    (start, width)
  }

  /** When the right value leads, the fill lies wholly on the left half of
      the track and reaches the centre only if the left value is zero. */
  lemma BarSpanRightLead(leftVal: int, rightVal: int)
    requires 0 <= leftVal < rightVal
    ensures BarSpan(leftVal, rightVal).0 + BarSpan(leftVal, rightVal).1 <= 50.0
    ensures BarSpan(leftVal, rightVal).0 + BarSpan(leftVal, rightVal).1 == 50.0 <==> leftVal == 0
  {
    var t := (leftVal + rightVal) as real;
    var l := leftVal as real;
    var r := rightVal as real;
    var span := BarSpan(leftVal, rightVal);
    assert span.0 == 50.0 - r / t * 50.0;
    assert span.1 == (r - l) / t * 50.0;
    assert (r - l) / t == r / t - l / t;
    assert span.0 + span.1 == 50.0 - l / t * 50.0;
    RatioNonNegative(l, t);
  }

  /** A non-negative share of a positive total is non-negative, and zero
      only for a zero part. */
  lemma RatioNonNegative(part: real, total: real)
    requires part >= 0.0 && total > 0.0
    ensures part / total >= 0.0
    ensures part / total == 0.0 <==> part == 0.0
  {
    var q := part / total;
    assert q * total == part;
  }

  /** Toggling from the profile screen is offered only for wall members,
      and there it keeps "active implies unlocked". */
  lemma WallToggleKeepsActiveUnlocked(s: App.AppState, id: RoleId)
    requires App.ActiveImpliesUnlocked(s.roster)
    requires exists c :: c in OwnedWall(s.roster) && c.id == id
    ensures App.ToggleActive(s, id).Some?
    ensures App.ActiveImpliesUnlocked(App.ToggleActive(s, id).value.roster)
  {
    var c :| c in OwnedWall(s.roster) && c.id == id;
    var k :| 0 <= k < |s.roster| && s.roster[k] == c;
  }
}
