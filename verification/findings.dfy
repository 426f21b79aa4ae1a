/** The energy balance as the source writes it. `INITIAL_STATS`
    (constants.ts:70-72) has no `energy` field although `MBTIStats` declares
    one (types.ts:69), so a fresh session starts with `energy` undefined and
    every arithmetic step on it yields `NaN`. This takes a roster whose
    personas have codes and costs, as types.ts declares; on the shipped
    roster constant the first-run selection throws before the balance is
    touched (App.tsx:65-66). This module models the
    JavaScript values involved, shows what the balance does as written, and
    proves what the corrected initial value (`Constants.InitialStats`, with a
    zero balance, which the rest of the model uses) gives instead. */
module Findings {
  import opened Wrappers
  import opened Seqs
  import opened Types
  import Constants
  import App

  /** The JavaScript values the balance can hold. */
  datatype JsNumber = Undefined | NaN | Null | Num(n: int)

  /** `x + k` for an integer `k`: `undefined` and `NaN` give `NaN`, `null`
      reads as 0. */
  function Plus(x: JsNumber, k: int): (r: JsNumber)
    ensures x.Num? ==> r == Num(x.n + k)
    ensures x.Null? ==> r == Num(k)
    ensures x.Undefined? || x.NaN? ==> r == NaN
  {
    match x
    case Undefined => NaN
    case NaN => NaN
    case Null => Num(k)
    case Num(n) => Num(n + k)
  }

  /** `x >= k`: false for `undefined` and `NaN` whatever `k` is; `null`
      reads as 0. */
  function AtLeast(x: JsNumber, k: int): (b: bool)
    ensures x.Undefined? || x.NaN? ==> !b
    ensures x.Num? ==> (b <==> x.n >= k)
    ensures x.Null? ==> (b <==> 0 >= k)
  {
    match x
    case Undefined => false
    case NaN => false
    case Null => 0 >= k
    case Num(n) => n >= k
  }

  /** A save to and load from storage: `JSON.stringify` writes `NaN` as
      `null` and drops an undefined field, which then loads as undefined. */
  function Reload(x: JsNumber): (r: JsNumber)
    ensures x.NaN? ==> r == Null
    ensures !x.NaN? ==> r == x
  {
    if x.NaN? then Null else x
  }

  /** The balance of a fresh session as written. */
  const AsWrittenInitialEnergy: JsNumber := Undefined

  /** The balance after the first-run selection as written
      (`prev.energy + 300`, App.tsx:93). */
  function AsWrittenBootstrap(x: JsNumber): (r: JsNumber)
    ensures x.Num? ==> r == Num(x.n + App.BootstrapBonus)
  {
    Plus(x, App.BootstrapBonus)
  }

  /** The balance after `k` first likes as written (`curr.energy + 20`,
      App.tsx:132). */
  function AsWrittenLikes(x: JsNumber, k: nat): (r: JsNumber)
    ensures x.Num? ==> r == Num(x.n + k * App.LikeReward)
  {
    if k == 0 then x else Plus(AsWrittenLikes(x, k - 1), App.LikeReward)
  }

  /** As written, a fresh session's balance is `NaN` after the first-run
      selection and stays `NaN` through any number of likes, so the unlock
      guard (App.tsx:101) refuses every persona, whatever its cost. */
  lemma {:induction false} AsWrittenEnergyIsNaN(k: nat, cost: int)
    ensures AsWrittenLikes(AsWrittenBootstrap(AsWrittenInitialEnergy), k) == NaN
    ensures !AtLeast(AsWrittenLikes(AsWrittenBootstrap(AsWrittenInitialEnergy), k), cost)
  {
    if k > 0 {
      AsWrittenEnergyIsNaN(k - 1, cost);
    }
  }

  /** Only a reload revives the balance, and then at `null`: the 300 granted
      by the first-run selection are lost, and `k` later likes leave
      `20 * k`. */
  lemma {:induction false} AsWrittenReloadLosesBonus(k: nat)
    ensures AsWrittenLikes(Reload(AsWrittenBootstrap(AsWrittenInitialEnergy)), k)
            == if k == 0 then Null else Num(k * App.LikeReward)
  {
    if k > 0 {
      AsWrittenReloadLosesBonus(k - 1);
    }
  }

  /** With the corrected zero balance, the first-run selection leaves
      exactly the 300 bonus, enough to unlock any persona costing up to
      that. */
  lemma CorrectedBootstrapEnergy(s: App.AppState, primary: RoleId, order: seq<RoleId>, id: RoleId)
    requires s.stats == Constants.InitialStats
    requires multiset(order) == multiset(Ids(App.Candidates(s.roster, primary)))
    requires Lookup(s.roster, primary).Some?
    requires Lookup(s.roster, id).Some? && Lookup(s.roster, id).value.cost <= App.BootstrapBonus
    ensures App.HandleInitialSelect(s, primary, order).value.state.stats.energy == App.BootstrapBonus
    ensures App.CanUnlock(App.HandleInitialSelect(s, primary, order).value.state, id)
  {
    var p := Lookup(s.roster, primary).value;
    var comp := App.Companions(s.roster, primary, p.mbti, order);
    var t := App.HandleInitialSelect(s, primary, order).value.state;
    assert t.stats.energy == s.stats.energy + App.BootstrapBonus;
    assert t.roster == App.Awaken(s.roster, {primary} + SetOf(comp));
    App.AwakenKeepsCost(s.roster, {primary} + SetOf(comp), id);
  }
}
