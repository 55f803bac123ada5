// Short runs from the constructor on which the address manager does what one would not expect.
module AddrManCases {
  import opened AddrManState
  import opened AddrManProofs
  import opened AddrManOps
  import opened AddrManRuns

  // Every address is hashed to slot 0.
  const CROWDED := Env(_ => 0, _ => 0, _ => true)
  const FIRST := Address(Service(1, 8333), 0, 1000)
  const SECOND := Address(Service(2, 8333), 0, 1000)
  const ADD_FIRST := DoAdd(FIRST, 3, 0, 1000, 0)

  lemma RunOne(env: Env, key: Key, op: Op)
    ensures Indexed(env, Empty(key), {}, {}) && Run(env, key, [op]) == Apply(env, Empty(key), op)
  {
    EmptyOk(env, key);
    assert [op][..0] == [];
    hide Indexed, Apply;
  }

  lemma RunTwo(env: Env, key: Key, op1: Op, op2: Op)
    ensures Run(env, key, [op1, op2]) == Apply(env, Run(env, key, [op1]), op2)
  {
    assert [op1, op2][..1] == [op1];
    hide Indexed, Apply;
  }

  // The first address added gets id 0 and the slot it is hashed to.
  lemma AddedFirst(key: Key)
    ensures var s := Run(CROWDED, key, [ADD_FIRST]);
            && s == TakeSlot(Created(Empty(key), FIRST, 3, 0), 0, 0)
            && s.nKey == key && Known(s, FIRST.service) && s.mapAddr == map[1 := 0]
            && s.newTable[0] == 0 && s.mapInfo[0] == NewInfo(FIRST, 3).(nRandomPos := 0, nRefCount := 1)
  {
    AddedTakesSlot(key);
    hide Run, Indexed;
  }

  lemma AddedTakesSlot(key: Key)
    ensures Run(CROWDED, key, [ADD_FIRST]) == TakeSlot(Created(Empty(key), FIRST, 3, 0), 0, 0)
  {
    RunOne(CROWDED, key, ADD_FIRST);
    CreatedOk(CROWDED, Empty(key), FIRST, 3, 0);
    hide Indexed;
    var s1 := Created(Empty(key), FIRST, 3, 0);
    assert ReportSlot(CROWDED, s1, 0, 3) == 0;
  }

  // Good with time 0: a tried entry that never succeeded, which the consistency check rejects.
  lemma GoodAtZero(key: Key)
    requires key != 0
    ensures Consistent(CROWDED, Run(CROWDED, key, [ADD_FIRST]))
    ensures !Consistent(CROWDED, Run(CROWDED, key, [ADD_FIRST, DoGood(FIRST.service, 0)]))
  {
    AddedFirst(key);
    EveryRunIsConsistent(CROWDED, key, [ADD_FIRST]);
    RunTwo(CROWDED, key, ADD_FIRST, DoGood(FIRST.service, 0));
    hide Run, Consistent, Known;
    GoodConsistentIff(CROWDED, Run(CROWDED, key, [ADD_FIRST]), FIRST.service, 0);
  }

  // Attempt at time -1: a last try before the epoch, which the check rejects as well.
  lemma AttemptBeforeZero(key: Key)
    requires key != 0
    ensures Consistent(CROWDED, Run(CROWDED, key, [ADD_FIRST]))
    ensures !Consistent(CROWDED, Run(CROWDED, key, [ADD_FIRST, DoAttempt(FIRST.service, -1)]))
  {
    AddedFirst(key);
    EveryRunIsConsistent(CROWDED, key, [ADD_FIRST]);
    RunTwo(CROWDED, key, ADD_FIRST, DoAttempt(FIRST.service, -1));
    hide Run, Indexed, TimesOk, Known;
    AttemptKeepsIndexes(CROWDED, Run(CROWDED, key, [ADD_FIRST]), FIRST.service, -1);
  }

  // A second address for the slot of the first: Add answers that it is new, and forgets it.
  lemma AddedAndGone(key: Key)
    ensures var s := Run(CROWDED, key, [ADD_FIRST]);
            AddAnswer(CROWDED, s, SECOND) && 2 !in Run(CROWDED, key, [ADD_FIRST, DoAdd(SECOND, 3, 0, 1000, 0)]).mapAddr
  {
    AddedFirst(key);
    var s := Run(CROWDED, key, [ADD_FIRST]);
    RunTwo(CROWDED, key, ADD_FIRST, DoAdd(SECOND, 3, 0, 1000, 0));
    hide Run, Indexed, Add;
    assert NewSlot(CROWDED, s.nKey, SECOND.service, GetNewBucket(CROWDED, s.nKey, SECOND.service, 3)) == 0;
    assert !IsTerrible(s.mapInfo[0], 1000);
    AddKeepsIff(CROWDED, s, SECOND, 3, 0, 1000, 0);
  }
}
