/** The initial data (constants.ts): the shape of the persona roster and the
    initial trait vector. */
module Constants {
  import opened Types
  import TypeCode

  /** What each roster entry of constants.ts fixes: the key it is stored
      under, its `id` field and the letter its `dimension` label starts
      with. The entries carry no type code, cost, level or unlock flags, so
      the rest of the model takes the roster as a parameter. */
  datatype ShapeEntry = ShapeEntry(key: RoleId, id: RoleId, dimension: char)

  /** The eight entries of `CHARACTERS`, in declaration order
      (constants.ts:3-68). */
  const CharactersShape: seq<ShapeEntry> := [
    ShapeEntry(Spark, Spark, 'E'),
    ShapeEntry(Echo, Echo, 'I'),
    ShapeEntry(Vision, Vision, 'N'),
    ShapeEntry(Root, Root, 'S'),
    ShapeEntry(Logic, Logic, 'T'),
    ShapeEntry(Heart, Heart, 'F'),
    ShapeEntry(Judge, Judge, 'J'),
    ShapeEntry(Flow, Flow, 'P')
  ]

  /** The keys `CHARACTERS` is indexed by. */
  function ShapeKeys(): (r: set<RoleId>)
    ensures forall id :: id in r <==> exists k :: 0 <= k < |CharactersShape| && CharactersShape[k].key == id
    ensures User !in r && |r| == 8
  {
    var r := {Spark, Echo, Vision, Root, Logic, Heart, Judge, Flow};
    assert CharactersShape[0].key == Spark && CharactersShape[1].key == Echo;
    assert CharactersShape[2].key == Vision && CharactersShape[3].key == Root;
    assert CharactersShape[4].key == Logic && CharactersShape[5].key == Heart;
    assert CharactersShape[6].key == Judge && CharactersShape[7].key == Flow;
    r
  }

  /** `INITIAL_STATS` has no energy field (constants.ts:70-72); the model
      starts the balance at this explicit value. */
  const InitialEnergy: int := 0

  /** The initial trait vector: every counter at zero. */
  const InitialStats: MBTIStats := MBTIStats(0, 0, 0, 0, 0, 0, 0, 0, InitialEnergy)

  /** The roster constant has eight entries, each stored under its own id,
      no two under the same key, none of them the user sentinel, and their
      dimension labels name each of the eight letters once. */
  lemma CharactersShapeFacts()
    ensures |CharactersShape| == 8
    ensures forall k :: 0 <= k < 8 ==> CharactersShape[k].key == CharactersShape[k].id
    ensures forall k :: 0 <= k < 8 ==> CharactersShape[k].key != User
    ensures forall i, j :: 0 <= i < j < 8 ==> CharactersShape[i].key != CharactersShape[j].key
    ensures forall i, j :: 0 <= i < j < 8 ==> CharactersShape[i].dimension != CharactersShape[j].dimension
    ensures forall k :: 0 <= k < 8 ==> TypeCode.IsLetter(CharactersShape[k].dimension)
  {
  }

  /** All eight counters of the initial trait vector read zero. */
  lemma InitialStatsZero(c: char)
    ensures Counter(InitialStats, c) == 0
    ensures CounterSum(InitialStats) == 0
  {
  }
}
