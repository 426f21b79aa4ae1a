/** The top-level session transitions (App.tsx): first-run bootstrap of the
    cabinet, the cost-gated unlock, the activation toggle and the like
    ("resonance") transition with its trait reinforcement. */
module App {
  import opened Wrappers
  import opened Seqs
  import opened Types
  import TypeCode

  /** Energy granted by the first-run selection (App.tsx:93). */
  const BootstrapBonus: int := 300
  /** Energy granted by each first like (App.tsx:132). */
  const LikeReward: int := 20
  /** How many companions the first-run selection aims for (App.tsx:83). */
  const CompanionTarget: nat := 3

  /** The session state App.tsx holds: the roster, the trait vector, the
      chat history and the journal. */
  datatype AppState = AppState(
    roster: Roster,
    stats: MBTIStats,
    messages: seq<Message>,
    entries: seq<JournalEntry>)

  /** The selection screen is shown on load exactly when the stored
      selection flag is missing or empty, `!selectionDone` (App.tsx:28, 35-37). */
  function ShowSelectionOnLoad(stored: Option<string>): (show: bool)
    ensures show <==> stored.None? || |stored.value| == 0
    ensures stored == Some("true") ==> !show
  {
    !(stored.Some? && stored.value != "")
  }

  // ---------------------------------------------------------------------
  // Roster updates

  /** Two rosters have the same keys in the same order. */
  predicate SameKeys(a: Roster, b: Roster) {
    Ids(a) == Ids(b)
  }

  /** Entries whose id is outside `ids` are equal in both rosters. */
  predicate UnchangedOutside(a: Roster, b: Roster, ids: set<RoleId>) {
    |a| == |b| && forall k :: 0 <= k < |a| && a[k].id !in ids ==> b[k] == a[k]
  }

  /** The invariant "an active persona is unlocked". */
  predicate ActiveImpliesUnlocked(roster: Roster) {
    forall k :: 0 <= k < |roster| && roster[k].isActive ==> roster[k].unlocked
  }

  /** `{ ...c, unlocked: true, isActive: true }` applied to the entries
      keyed by `ids`. */
  function Awaken(roster: Roster, ids: set<RoleId>): (r: Roster)
    ensures SameKeys(roster, r) && UnchangedOutside(roster, r, ids)
    ensures forall k :: 0 <= k < |r| && roster[k].id in ids ==>
              r[k] == roster[k].(unlocked := true, isActive := true)
  {
    seq(|roster|, k requires 0 <= k < |roster| =>
      if roster[k].id in ids then roster[k].(unlocked := true, isActive := true) else roster[k])
  }

  /** Awakening keeps every entry's key and cost. */
  lemma AwakenKeepsCost(roster: Roster, ids: set<RoleId>, id: RoleId)
    requires Lookup(roster, id).Some?
    ensures Lookup(Awaken(roster, ids), id).Some?
    ensures Lookup(Awaken(roster, ids), id).value.cost == Lookup(roster, id).value.cost
  {
    var r := Awaken(roster, ids);
    var k :| 0 <= k < |roster| && roster[k].id == id;
    assert r[k].id == id && r[k].cost == roster[k].cost;
  }

  /** `{ ...c, isActive: !c.isActive }` applied to the entry keyed `id`. */
  function FlipActive(roster: Roster, id: RoleId): (r: Roster)
    ensures SameKeys(roster, r) && UnchangedOutside(roster, r, {id})
    ensures forall k :: 0 <= k < |r| && roster[k].id == id ==>
              r[k] == roster[k].(isActive := !roster[k].isActive)
  {
    seq(|roster|, k requires 0 <= k < |roster| =>
      if roster[k].id == id then roster[k].(isActive := !roster[k].isActive) else roster[k])
  }

  // ---------------------------------------------------------------------
  // handleUnlock (App.tsx:99-108)

  /** The guard of `handleUnlock`: the persona exists and the balance
      covers its cost. */
  predicate CanUnlock(s: AppState, id: RoleId) {
    Lookup(s.roster, id).Some? && s.stats.energy >= Lookup(s.roster, id).value.cost
  }

  /** Unlocking debits the cost and marks the persona unlocked and active;
      when the persona is missing or the balance is short nothing changes.
      There is no already-unlocked check. */
  function HandleUnlock(s: AppState, id: RoleId): (r: AppState)
    ensures CanUnlock(s, id) ==>
      var c := Lookup(s.roster, id).value;
      && r.stats == s.stats.(energy := s.stats.energy - c.cost)
      && Lookup(r.roster, id) == Some(c.(unlocked := true, isActive := true))
      && SameKeys(s.roster, r.roster) && UnchangedOutside(s.roster, r.roster, {id})
      && r.messages == s.messages && r.entries == s.entries
    ensures !CanUnlock(s, id) ==> r == s
    ensures s.stats.energy >= 0 ==> r.stats.energy >= 0
  {
    match Lookup(s.roster, id)
    case None => s
    case Some(c) =>
      if s.stats.energy >= c.cost then
        s.(stats := s.stats.(energy := s.stats.energy - c.cost),
           roster := Awaken(s.roster, {id}))
      else s
  }

  /** Unlocking an already unlocked persona charges again: two unlocks in a
      row debit the cost twice whenever the balance covers both. */
  lemma UnlockNotIdempotent(s: AppState, id: RoleId)
    requires CanUnlock(s, id)
    requires s.stats.energy >= 2 * Lookup(s.roster, id).value.cost
    ensures HandleUnlock(HandleUnlock(s, id), id).stats.energy
            == s.stats.energy - 2 * Lookup(s.roster, id).value.cost
  {
    var c := Lookup(s.roster, id).value;
    var s1 := HandleUnlock(s, id);
    assert Lookup(s1.roster, id).value.cost == c.cost;
    assert CanUnlock(s1, id);
  }

  /** Unlocking never makes an active persona locked. */
  lemma UnlockKeepsActiveUnlocked(s: AppState, id: RoleId)
    requires ActiveImpliesUnlocked(s.roster)
    ensures ActiveImpliesUnlocked(HandleUnlock(s, id).roster)
  {
  }

  // ---------------------------------------------------------------------
  // toggleActive (App.tsx:110-115)

  /** Toggling flips the active flag of the persona keyed `id` and touches
      nothing else; it does not look at `unlocked`. Toggling a missing key
      reads a field of `undefined` and throws, leaving the state as it was:
      `None`. */
  function ToggleActive(s: AppState, id: RoleId): (r: Option<AppState>)
    ensures r.Some? <==> Lookup(s.roster, id).Some?
    ensures r.Some? ==>
      var c := Lookup(s.roster, id).value;
      && Lookup(r.value.roster, id) == Some(c.(isActive := !c.isActive))
      && SameKeys(s.roster, r.value.roster) && UnchangedOutside(s.roster, r.value.roster, {id})
      && r.value.stats == s.stats && r.value.messages == s.messages
      && r.value.entries == s.entries
  {
    if Lookup(s.roster, id).None? then None
    else Some(s.(roster := FlipActive(s.roster, id)))
  }

  /** Toggling twice restores the state. */
  lemma ToggleTwice(s: AppState, id: RoleId)
    requires ToggleActive(s, id).Some?
    ensures ToggleActive(ToggleActive(s, id).value, id) == Some(s)
  {
    var s1 := ToggleActive(s, id).value;
    var s2 := ToggleActive(s1, id).value;
    assert s2.roster == s.roster;
  }

  /** Toggling a locked, inactive persona makes it active while still
      locked, breaking "active implies unlocked". */
  lemma ToggleIgnoresLock(s: AppState, id: RoleId)
    requires Lookup(s.roster, id).Some?
    requires !Lookup(s.roster, id).value.unlocked && !Lookup(s.roster, id).value.isActive
    ensures !ActiveImpliesUnlocked(ToggleActive(s, id).value.roster)
  {
    var r := ToggleActive(s, id).value.roster;
    var k :| 0 <= k < |s.roster| && s.roster[k].id == id;
    assert r[k].isActive && !r[k].unlocked;
  }

  // ---------------------------------------------------------------------
  // handleLike (App.tsx:117-139)

  /** A message the like with id `msgId` applies to: same id, not yet liked. */
  predicate Fresh(m: Message, msgId: string) {
    m.id == msgId && !m.likedByUser
  }

  /** The message map of `handleLike`: every fresh match becomes liked with
      one more like; every other message is kept as it was. */
  function MarkLiked(msgs: seq<Message>, msgId: string): (r: seq<Message>)
    ensures |r| == |msgs|
    ensures forall k :: 0 <= k < |msgs| ==>
      r[k] == if Fresh(msgs[k], msgId)
              then msgs[k].(likedByUser := true, likes := msgs[k].likes + 1)
              else msgs[k]
  {
    seq(|msgs|, k requires 0 <= k < |msgs| =>
      if Fresh(msgs[k], msgId) then msgs[k].(likedByUser := true, likes := msgs[k].likes + 1)
      else msgs[k])
  }

  /** The number of messages a like with id `msgId` applies to. */
  function FreshCount(msgs: seq<Message>, msgId: string): (n: nat)
    ensures n == 0 <==> forall k :: 0 <= k < |msgs| ==> !Fresh(msgs[k], msgId)
    ensures n <= |msgs|
  {
    if msgs == [] then 0
    else (if Fresh(msgs[0], msgId) then 1 else 0) + FreshCount(msgs[1..], msgId)
  }

  /** With pairwise distinct message ids at most one message is fresh. */
  lemma {:induction false} FreshCountUnique(msgs: seq<Message>, msgId: string)
    requires forall i, j :: 0 <= i < j < |msgs| ==> msgs[i].id != msgs[j].id
    ensures FreshCount(msgs, msgId) <= 1
  {
    if msgs != [] {
      FreshCountUnique(msgs[1..], msgId);
      if Fresh(msgs[0], msgId) {
        assert forall k :: 0 <= k < |msgs[1..]| ==> !Fresh(msgs[1..][k], msgId);
      }
    }
  }

  /** The trait update of one first like on a persona with type code
      `code`: every counter whose letter occurs in the code goes up by one
      (a repeated letter still counts once, since the update sets
      `stats[letter] + 1`), every other counter is kept, and energy rises by
      the reward. */
  function Reward(st: MBTIStats, code: string): (r: MBTIStats)
    ensures forall c :: TypeCode.IsLetter(c) ==>
              Counter(r, c) == Counter(st, c) + (if c in code then 1 else 0)
    ensures r.energy == st.energy + LikeReward
  {
    MBTIStats(
      E := st.E + (if 'E' in code then 1 else 0),
      I := st.I + (if 'I' in code then 1 else 0),
      N := st.N + (if 'N' in code then 1 else 0),
      S := st.S + (if 'S' in code then 1 else 0),
      T := st.T + (if 'T' in code then 1 else 0),
      F := st.F + (if 'F' in code then 1 else 0),
      J := st.J + (if 'J' in code then 1 else 0),
      P := st.P + (if 'P' in code then 1 else 0),
      energy := st.energy + LikeReward)
  }

  /** For a well-formed code the like raises exactly the code's four
      counters, by one each, so the counter total grows by exactly four. */
  lemma RewardValidCode(st: MBTIStats, code: string)
    requires TypeCode.ValidCode(code)
    ensures CounterSum(Reward(st, code)) == CounterSum(st) + 4
    ensures forall k :: 0 <= k < 4 ==>
      Counter(Reward(st, code), code[k]) == Counter(st, code[k]) + 1 &&
      Counter(Reward(st, code), TypeCode.ComplementLetter(code[k]))
        == Counter(st, TypeCode.ComplementLetter(code[k]))
  {
    TypeCode.ValidCodeLetters(code);
    assert code == [code[0], code[1], code[2], code[3]];
  }

  /** The stats update of `handleLike` when `k >= 1` messages are fresh.
      Every `setStats` call spreads the same `update` object, computed from
      the `stats` read when the like was pressed, so the counters end one
      above their old values however many messages matched, while each call
      adds the reward to the then-current energy. */
  function LikeStats(st: MBTIStats, code: string, k: nat): (r: MBTIStats)
    requires k >= 1
    ensures forall c :: TypeCode.IsLetter(c) ==>
              Counter(r, c) == Counter(st, c) + (if c in code then 1 else 0)
    ensures r.energy == st.energy + k * LikeReward
  {
    Reward(st, code).(energy := st.energy + k * LikeReward)
  }

  /** `handleLike(msgId, roleId)`: each fresh match is liked, and if
      `roleId` keys a roster entry and something matched, the stats take
      that persona's letters and one reward per match. */
  function HandleLike(s: AppState, msgId: string, roleId: RoleId): (r: AppState)
    ensures r.roster == s.roster && r.entries == s.entries
    ensures r.messages == MarkLiked(s.messages, msgId)
    ensures FreshCount(s.messages, msgId) == 0 || Lookup(s.roster, roleId).None? ==>
              r.stats == s.stats
    ensures FreshCount(s.messages, msgId) >= 1 && Lookup(s.roster, roleId).Some? ==>
              && SameCounters(r.stats, Reward(s.stats, Lookup(s.roster, roleId).value.mbti))
              && r.stats.energy == s.stats.energy + FreshCount(s.messages, msgId) * LikeReward
  {
    var msgs := MarkLiked(s.messages, msgId);
    var k := FreshCount(s.messages, msgId);
    match Lookup(s.roster, roleId)
    case None => s.(messages := msgs)
    case Some(c) =>
      if k == 0 then s.(messages := msgs)
      else s.(messages := msgs, stats := LikeStats(s.stats, c.mbti, k))
  }

  /** With pairwise distinct message ids, a like on a fresh message of a
      persona in the roster is exactly one reward: the persona's letters up
      by one and the energy up by twenty. */
  lemma LikeDistinctIdsRewardsOnce(s: AppState, msgId: string, roleId: RoleId)
    requires forall i, j :: 0 <= i < j < |s.messages| ==> s.messages[i].id != s.messages[j].id
    requires exists k :: 0 <= k < |s.messages| && Fresh(s.messages[k], msgId)
    requires Lookup(s.roster, roleId).Some?
    ensures HandleLike(s, msgId, roleId).stats == Reward(s.stats, Lookup(s.roster, roleId).value.mbti)
  {
    FreshCountUnique(s.messages, msgId);
    var r := HandleLike(s, msgId, roleId).stats;
    var w := Reward(s.stats, Lookup(s.roster, roleId).value.mbti);
    assert Counter(r, 'E') == Counter(w, 'E') && Counter(r, 'I') == Counter(w, 'I');
    assert Counter(r, 'N') == Counter(w, 'N') && Counter(r, 'S') == Counter(w, 'S');
    assert Counter(r, 'T') == Counter(w, 'T') && Counter(r, 'F') == Counter(w, 'F');
    assert Counter(r, 'J') == Counter(w, 'J') && Counter(r, 'P') == Counter(w, 'P');
  }

  /** A second like with the same arguments changes nothing: the messages
      are already liked, so neither they nor the trait vector move. */
  lemma {:induction false} LikeTwiceIsNoop(s: AppState, msgId: string, roleId: RoleId)
    ensures HandleLike(HandleLike(s, msgId, roleId), msgId, roleId) == HandleLike(s, msgId, roleId)
  {
    var s1 := HandleLike(s, msgId, roleId);
    var s2 := HandleLike(s1, msgId, roleId);
    assert FreshCount(s1.messages, msgId) == 0;
    assert s2.messages == s1.messages;
  }

  /** Likes only ever grow: every message keeps its id, author and text,
      its like count grows by at most one, and a liked message stays liked. */
  lemma LikeMonotone(s: AppState, msgId: string, roleId: RoleId)
    ensures var r := HandleLike(s, msgId, roleId);
      forall k :: 0 <= k < |s.messages| ==>
        && r.messages[k].id == s.messages[k].id
        && r.messages[k].roleId == s.messages[k].roleId
        && r.messages[k].text == s.messages[k].text
        && s.messages[k].likes <= r.messages[k].likes <= s.messages[k].likes + 1
        && (s.messages[k].likedByUser ==> r.messages[k] == s.messages[k])
  {
  }

  // ---------------------------------------------------------------------
  // handleInitialSelect (App.tsx:51-97)

  /** `allIds.filter(id => id !== roleId && id !== RoleId.USER)`: the
      entries other than the primary and the user, in key order. */
  function Candidates(roster: Roster, primary: RoleId): (r: Roster)
    ensures forall c :: c in r <==> c in roster && c.id != primary && c.id != User
  {
    FilterKeepsDistinctIds(roster, (c: Character) => c.id != primary && c.id != User);
    Filter(roster, (c: Character) => c.id != primary && c.id != User)
  }

  /** `candidates.find(id => characters[id].mbti === code)`: the first
      candidate with that code. */
  function FindCode(cands: seq<Character>, code: string): (r: Option<RoleId>)
    ensures r.None? <==> forall k :: 0 <= k < |cands| ==> cands[k].mbti != code
    ensures r.Some? ==> exists k :: 0 <= k < |cands| && cands[k].id == r.value
                                    && cands[k].mbti == code
                                    && forall j :: 0 <= j < k ==> cands[j].mbti != code
  {
    if cands == [] then None
    else if cands[0].mbti == code then Some(cands[0].id)
    else
      var r := FindCode(cands[1..], code);
      if r.Some? then
        ghost var k :| 0 <= k < |cands[1..]| && cands[1..][k].id == r.value
                       && cands[1..][k].mbti == code
                       && forall j :: 0 <= j < k ==> cands[1..][j].mbti != code;
        assert cands[k + 1].id == r.value;
        r
      else r
  }

  /** The fill loop `order.forEach(id => { if (selection.length < 3 &&
      !selection.includes(id)) selection.push(id) })`. */
  function Fill(sel: seq<RoleId>, order: seq<RoleId>): (r: seq<RoleId>)
    ensures |sel| <= |r| && r[..|sel|] == sel
    ensures forall x :: x in r ==> x in sel || x in order
    decreases |order|
  {
    if order == [] then sel
    else if |sel| < CompanionTarget && order[0] !in sel then Fill(sel + [order[0]], order[1..])
    else Fill(sel, order[1..])
  }

  /** Filling a duplicate-free selection of at most three from a
      duplicate-free order adds no duplicates and reaches three, or
      runs out of new ids first. */
  lemma {:induction false} FillSize(sel: seq<RoleId>, order: seq<RoleId>)
    requires Distinct(sel) && Distinct(order) && |sel| <= CompanionTarget
    ensures Distinct(Fill(sel, order))
    ensures |Fill(sel, order)| == Min(CompanionTarget, |sel| + |SetOf(order) - SetOf(sel)|)
    decreases |order|
  {
    if order == [] {
      assert SetOf(order) - SetOf(sel) == {};
    } else {
      var o := order[0];
      var rest := order[1..];
      assert Distinct(rest);
      if |sel| < CompanionTarget && o !in sel {
        var sel' := sel + [o];
        assert Distinct(sel');
        FillSize(sel', rest);
        TakeFirst(sel, order);
      } else {
        FillSize(sel, rest);
        if o in sel {
          SkipKnown(sel, order);
        }
      }
    }
  }

  /** Taking the head of a duplicate-free order removes exactly one id
      from those still to be added. */
  lemma TakeFirst(sel: seq<RoleId>, order: seq<RoleId>)
    requires Distinct(order) && |order| > 0 && order[0] !in sel
    ensures |SetOf(order[1..]) - SetOf(sel + [order[0]])| == |SetOf(order) - SetOf(sel)| - 1
  {
    var o := order[0];
    var A := SetOf(order) - SetOf(sel);
    var B := SetOf(order[1..]) - SetOf(sel + [o]);
    assert o !in order[1..];
    forall x ensures x in A <==> x in B || x == o {
      assert x in order <==> x == o || x in order[1..];
      assert x in sel + [o] <==> x in sel || x == o;
    }
    assert A == B + {o};
    assert o !in B;
  }

  /** Skipping a head that is already selected changes nothing still to add. */
  lemma SkipKnown(sel: seq<RoleId>, order: seq<RoleId>)
    requires |order| > 0 && order[0] in sel
    ensures SetOf(order[1..]) - SetOf(sel) == SetOf(order) - SetOf(sel)
  {
    forall x ensures x in order <==> x == order[0] || x in order[1..] {
      assert order == [order[0]] + order[1..];
    }
  }

  /** The companions of the first-run selection: the first candidate whose
      code is the complement of `code` (the primary's), then the shuffled
      candidates in `order`, up to three in all, with no repeats. */
  function Companions(roster: Roster, primary: RoleId, code: string, order: seq<RoleId>): (comp: seq<RoleId>)
    requires multiset(order) == multiset(Ids(Candidates(roster, primary)))
    ensures Distinct(comp)
    ensures forall x :: x in comp ==> x in Ids(Candidates(roster, primary))
    ensures |comp| == Min(CompanionTarget, |Candidates(roster, primary)|)
    ensures var shadow := FindCode(Candidates(roster, primary), TypeCode.Complement(code));
            shadow.Some? ==> |comp| > 0 && comp[0] == shadow.value
  {
    var cands := Candidates(roster, primary);
    var initial := ShadowSeed(cands, TypeCode.Complement(code));
    BootstrapCount(roster, primary, order, initial);
    var comp := Fill(initial, order);
    assert comp[..|initial|] == initial;
    comp
  }

  /** The selection before the fill: the first candidate carrying `code`,
      if there is one. */
  function ShadowSeed(cands: Roster, code: string): (r: seq<RoleId>)
    ensures |r| <= 1 && forall x :: x in r ==> x in Ids(cands)
    ensures FindCode(cands, code).Some? ==> r == [FindCode(cands, code).value]
    ensures FindCode(cands, code).None? <==> r == []
  {
    var shadow := FindCode(cands, code);
    if shadow.Some? then
      var k :| 0 <= k < |cands| && cands[k].id == shadow.value;
      assert Ids(cands)[k] == shadow.value;
      [shadow.value]
    else []
  }

  /** The companion count of the first-run selection: filling from a
      permutation of the candidates, starting from at most one candidate,
      gives `min(3, |candidates|)` distinct companions. */
  lemma BootstrapCount(roster: Roster, primary: RoleId, order: seq<RoleId>, initial: seq<RoleId>)
    requires multiset(order) == multiset(Ids(Candidates(roster, primary)))
    requires |initial| <= 1 && forall x :: x in initial ==> x in Ids(Candidates(roster, primary))
    ensures Distinct(Fill(initial, order))
    ensures |Fill(initial, order)| == Min(CompanionTarget, |Candidates(roster, primary)|)
    ensures forall x :: x in Fill(initial, order) ==> x in Ids(Candidates(roster, primary))
  {
    var ids := Ids(Candidates(roster, primary));
    forall x | x in order ensures x in ids {
      assert x in multiset(order);
    }
    assert Distinct(ids);
    PermutationDistinct(ids, order);
    DistinctCard(order);
    FillSize(initial, order);
    assert SetOf(initial) <= SetOf(order);
    assert |SetOf(initial)| == |initial| by {
      if |initial| == 1 { assert SetOf(initial) == {initial[0]}; }
      else { assert SetOf(initial) == {}; }
    }
    assert SetOf(order) == (SetOf(order) - SetOf(initial)) + SetOf(initial);
    assert (SetOf(order) - SetOf(initial)) * SetOf(initial) == {};
    assert |SetOf(order) - SetOf(initial)| == |SetOf(order)| - |SetOf(initial)|;
    assert |SetOf(order)| == |order| == |ids|;
  }

  /** The first candidate carrying a code is an entry of the roster, other
      than the primary and the user, with that code. */
  lemma FindCodeFound(roster: Roster, primary: RoleId, code: string)
    requires FindCode(Candidates(roster, primary), code).Some?
    ensures var id := FindCode(Candidates(roster, primary), code).value;
            id != primary && id != User &&
            Lookup(roster, id).Some? && Lookup(roster, id).value.mbti == code
  {
    var cands := Candidates(roster, primary);
    var id := FindCode(cands, code).value;
    var k :| 0 <= k < |cands| && cands[k].id == id && cands[k].mbti == code;
    var e := cands[k];
    assert e in cands;
    var j :| 0 <= j < |roster| && roster[j] == e;
  }

  /** When some candidate carries the complement of the primary's code, the
      first companion is the first such candidate in key order. */
  lemma CompanionsShadowFirst(roster: Roster, primary: RoleId, code: string, order: seq<RoleId>)
    requires multiset(order) == multiset(Ids(Candidates(roster, primary)))
    requires exists c :: c in Candidates(roster, primary) && c.mbti == TypeCode.Complement(code)
    ensures |Companions(roster, primary, code, order)| > 0
    ensures var first := Companions(roster, primary, code, order)[0];
            first != primary && first != User &&
            Lookup(roster, first).Some? &&
            Lookup(roster, first).value.mbti == TypeCode.Complement(code)
  {
    var cands := Candidates(roster, primary);
    var want := TypeCode.Complement(code);
    var c :| c in cands && c.mbti == want;
    var i :| 0 <= i < |cands| && cands[i] == c;
    assert cands[i].mbti == want;
    var shadow := FindCode(cands, want);
    assert shadow.Some?;
    FindCodeFound(roster, primary, want);
  }

  /** What the first-run selection produced: the new state and the
      companions in selection order. */
  datatype Bootstrap = Bootstrap(state: AppState, companions: seq<RoleId>)

  /** `handleInitialSelect(primary)` with the shuffled candidate order as a
      parameter: the primary and its companions become unlocked and active,
      every other entry is kept, and 300 energy is granted. A primary that
      keys no entry makes `characters[roleId].mbti` throw: `None`, nothing
      changes. */
  function HandleInitialSelect(s: AppState, primary: RoleId, order: seq<RoleId>): (r: Option<Bootstrap>)
    requires multiset(order) == multiset(Ids(Candidates(s.roster, primary)))
    ensures r.Some? <==> Lookup(s.roster, primary).Some?
    ensures r.Some? ==>
      var comp := r.value.companions;
      var t := r.value.state;
      && comp == Companions(s.roster, primary, Lookup(s.roster, primary).value.mbti, order)
      && SameKeys(s.roster, t.roster)
      && UnchangedOutside(s.roster, t.roster, {primary} + SetOf(comp))
      && (forall k :: 0 <= k < |t.roster| && t.roster[k].id in {primary} + SetOf(comp) ==>
            t.roster[k] == s.roster[k].(unlocked := true, isActive := true))
      && t.stats == s.stats.(energy := s.stats.energy + BootstrapBonus)
      && t.messages == s.messages && t.entries == s.entries
  {
    match Lookup(s.roster, primary)
    case None => None
    case Some(p) =>
      var comp := Companions(s.roster, primary, p.mbti, order);
      Some(Bootstrap(
        s.(roster := Awaken(s.roster, {primary} + SetOf(comp)),
           stats := s.stats.(energy := s.stats.energy + BootstrapBonus)),
        comp))
  }

  /** Running the first-run selection keeps "active implies unlocked". */
  lemma BootstrapKeepsActiveUnlocked(s: AppState, primary: RoleId, order: seq<RoleId>)
    requires multiset(order) == multiset(Ids(Candidates(s.roster, primary)))
    requires ActiveImpliesUnlocked(s.roster)
    requires HandleInitialSelect(s, primary, order).Some?
    ensures ActiveImpliesUnlocked(HandleInitialSelect(s, primary, order).value.state.roster)
  {
  }

  /** On a roster whose codes are pairwise distinct, the persona carrying
      the complement of the primary's code is itself a companion, and so
      `HandleInitialSelect` awakens it. */
  lemma ShadowIsCompanion(roster: Roster, primary: RoleId, code: string, order: seq<RoleId>, shadow: RoleId)
    requires multiset(order) == multiset(Ids(Candidates(roster, primary)))
    requires shadow != primary && shadow != User
    requires Lookup(roster, shadow).Some? && Lookup(roster, shadow).value.mbti == TypeCode.Complement(code)
    requires forall i, j :: 0 <= i < j < |roster| ==> roster[i].mbti != roster[j].mbti
    ensures shadow in Companions(roster, primary, code, order)
  {
    var c := Lookup(roster, shadow).value;
    assert c in Candidates(roster, primary);
    CompanionsShadowFirst(roster, primary, code, order);
    var comp := Companions(roster, primary, code, order);
    var first := Lookup(roster, comp[0]).value;
    var i :| 0 <= i < |roster| && roster[i] == c;
    var j :| 0 <= j < |roster| && roster[j] == first;
    assert roster[i].mbti == roster[j].mbti;
    assert i == j;
  }
}
