/** The object ID allocator (client.go `allocateID` and the delete_id case of `handleDisplayEvent`) over whole traces.
*/
module Ids {
  import opened Bytes

  const FIRST_SERVER_ID: u32 := 0xff00_0000

  /** `nextID`, `freeIDs` and `retiredIDs`. */
  datatype Allocator = Allocator(next: u32, free: seq<u32>, retired: set<u32>)

  const Fresh := Allocator(2, [], {}) // 1 is wl_display

  datatype Allocation = Allocation(alloc: Allocator, id: u32)

  /** `allocateID`: the most recently retired ID, else the next fresh one, else 0. */
  function Allocate(a: Allocator): Allocation {
    if a.free != [] then
      var id := a.free[|a.free| - 1];
      Allocation(a.(free := a.free[..|a.free| - 1], retired := a.retired - {id}), id)
    else if a.next == 0 || a.next >= FIRST_SERVER_ID then Allocation(a, 0)
    else Allocation(a.(next := a.next + 1), a.next)
  }

  /** The check delete_id makes; `live` says whether the table still holds an object that is not a zombie. */
  predicate Retirable(a: Allocator, id: u32, live: bool) {
    !(id < 2 || id >= FIRST_SERVER_ID || id >= a.next || live || id in a.retired)
  }

  function Retire(a: Allocator, id: u32): Allocator {
    a.(free := a.free + [id], retired := a.retired + {id})
  }

  /** `freeIDs` has no duplicates, is the retired set, and lies in [2, nextID). */
  predicate Ok(a: Allocator) {
    && 2 <= a.next <= FIRST_SERVER_ID
    && (forall i, j | 0 <= i < j < |a.free| :: a.free[i] != a.free[j])
    && (forall i | 0 <= i < |a.free| :: a.free[i] in a.retired)
    && (forall id | id in a.retired :: id in a.free && 2 <= id < a.next)
  }

  lemma AllocateOk(a: Allocator)
    requires Ok(a)
    ensures Ok(Allocate(a).alloc)
    ensures Allocate(a).id != 0 ==>
              2 <= Allocate(a).id < Allocate(a).alloc.next && Allocate(a).id !in Allocate(a).alloc.retired
    ensures Allocate(a).id != 0 ==> Allocate(a).id in a.retired || Allocate(a).id == a.next
    ensures Allocate(a).id == a.next ==> a.free == []
  {
    if a.free != [] {
      var n := |a.free| - 1;
      var id := a.free[n];
      var a' := Allocate(a).alloc;
      forall x | x in a'.retired ensures x in a'.free && 2 <= x < a'.next {
        var i :| 0 <= i < |a.free| && a.free[i] == x;
        assert i < n;
        assert a'.free[i] == x;
      }
    }
  }

  /** There is no ID to give exactly when none is free and the client's range is used up. */
  lemma NoIdLeft(a: Allocator)
    requires Ok(a)
    ensures Allocate(a).id == 0 <==> a.free == [] && a.next == FIRST_SERVER_ID
  {
    if a.free != [] {
      assert a.free[|a.free| - 1] in a.retired;
    }
  }

  lemma RetireOk(a: Allocator, id: u32, live: bool)
    requires Ok(a) && Retirable(a, id, live)
    ensures Ok(Retire(a, id))
  {
    var a' := Retire(a, id);
    assert a'.free[|a.free|] == id;
    forall x | x in a'.retired ensures x in a'.free && 2 <= x < a'.next {
      if x != id {
        var i :| 0 <= i < |a.free| && a.free[i] == x;
        assert a'.free[i] == x;
      }
    }
  }

  /** Giving out an ID just retired restores the allocator. */
  lemma AllocateUndoesRetire(a: Allocator, id: u32, live: bool)
    requires Ok(a) && Retirable(a, id, live)
    ensures Allocate(Retire(a, id)) == Allocation(a, id)
  {
    var a' := Retire(a, id);
    assert a'.free[..|a.free|] == a.free;
    assert a'.retired - {id} == a.retired;
  }

  // ----------------------------------------------------------------- traces

  /** Calls in the order the ID lock serialises them; whether a deleted ID is live is up to the environment. */
  datatype Call = AllocateId | DeleteId(id: u32, live: bool)

  datatype Answer = Returned(id: u32) | Accepted(id: u32) | Rejected(id: u32)

  function Step(a: Allocator, c: Call): Allocator {
    match c
    case AllocateId => Allocate(a).alloc
    case DeleteId(id, live) => if Retirable(a, id, live) then Retire(a, id) else a
  }

  function AnswerTo(a: Allocator, c: Call): Answer {
    match c
    case AllocateId => Returned(Allocate(a).id)
    case DeleteId(id, live) => if Retirable(a, id, live) then Accepted(id) else Rejected(id)
  }

  /** The allocator after the first `n` calls of a trace. */
  function After(calls: seq<Call>, n: nat): Allocator
    requires n <= |calls|
  {
    if n == 0 then Fresh else Step(After(calls, n - 1), calls[n - 1])
  }

  function AnswerAt(calls: seq<Call>, i: nat): Answer
    requires i < |calls|
  {
    AnswerTo(After(calls, i), calls[i])
  }

  lemma StepOk(a: Allocator, c: Call)
    requires Ok(a)
    ensures Ok(Step(a, c))
  {
    match c
    case AllocateId => AllocateOk(a);
    case DeleteId(id, live) => if Retirable(a, id, live) { RetireOk(a, id, live); }
  }

  /** The allocator invariant holds over every trace. */
  lemma {:induction false} AlwaysOk(calls: seq<Call>, n: nat)
    requires n <= |calls|
    ensures Ok(After(calls, n))
  {
    if n > 0 {
      AlwaysOk(calls, n - 1);
      StepOk(After(calls, n - 1), calls[n - 1]);
    }
  }

  /** An ID that has been handed out and not given back. */
  predicate Outstanding(a: Allocator, id: u32) {
    2 <= id < a.next && id !in a.retired
  }

  lemma StepKeepsOutstanding(a: Allocator, c: Call, id: u32)
    requires Ok(a) && Outstanding(a, id) && AnswerTo(a, c) != Accepted(id)
    ensures Outstanding(Step(a, c), id) && AnswerTo(a, c) != Returned(id)
  {
    if c.AllocateId? {
      AllocateOk(a);
    }
  }

  lemma ReturnedIsOutstanding(a: Allocator, c: Call, id: u32)
    requires Ok(a) && id != 0 && AnswerTo(a, c) == Returned(id)
    ensures Outstanding(Step(a, c), id)
  {
    AllocateOk(a);
  }

  /** `x` answers no call strictly between the `i`-th and the `j`-th. */
  predicate Absent(calls: seq<Call>, i: nat, j: nat, x: Answer)
    requires j <= |calls|
  {
    i + 1 >= j || (Absent(calls, i, j - 1, x) && AnswerAt(calls, j - 1) != x)
  }

  lemma {:induction false} PresentSomewhere(calls: seq<Call>, i: nat, j: nat, x: Answer)
    requires j <= |calls| && !Absent(calls, i, j, x)
    ensures exists k :: i < k < j && AnswerAt(calls, k) == x
  {
    if AnswerAt(calls, j - 1) != x {
      PresentSomewhere(calls, i, j - 1, x);
    }
  }

  lemma {:induction false} StaysOutstanding(calls: seq<Call>, i: nat, j: nat, id: u32)
    requires i < j <= |calls| && id != 0 && AnswerAt(calls, i) == Returned(id)
    requires Absent(calls, i, j, Accepted(id))
    ensures Outstanding(After(calls, j), id)
  {
    AlwaysOk(calls, j - 1);
    if j == i + 1 {
      ReturnedIsOutstanding(After(calls, i), calls[i], id);
    } else {
      StaysOutstanding(calls, i, j - 1, id);
      StepKeepsOutstanding(After(calls, j - 1), calls[j - 1], id);
    }
  }

  /** Any two returns of the same non-zero ID are separated by an accepted delete_id for it. */
  lemma ReuseIsSeparated(calls: seq<Call>, i: nat, j: nat, id: u32)
    requires i < j < |calls| && id != 0
    requires AnswerAt(calls, i) == Returned(id) && AnswerAt(calls, j) == Returned(id)
    ensures exists k :: i < k < j && AnswerAt(calls, k) == Accepted(id)
  {
    if Absent(calls, i, j, Accepted(id)) {
      StaysOutstanding(calls, i, j, id);
      AlwaysOk(calls, j);
      StepKeepsOutstanding(After(calls, j), calls[j], id);
    } else {
      PresentSomewhere(calls, i, j, Accepted(id));
    }
  }

  lemma StepKeepsRetired(a: Allocator, c: Call, id: u32)
    requires Ok(a) && id in a.retired && AnswerTo(a, c) != Returned(id)
    ensures id in Step(a, c).retired
  {
  }

  lemma {:induction false} StaysRetired(calls: seq<Call>, i: nat, j: nat, id: u32)
    requires i < j <= |calls| && AnswerAt(calls, i) == Accepted(id)
    requires Absent(calls, i, j, Returned(id))
    ensures id in After(calls, j).retired
  {
    AlwaysOk(calls, j - 1);
    if j > i + 1 {
      StaysRetired(calls, i, j - 1, id);
      StepKeepsRetired(After(calls, j - 1), calls[j - 1], id);
    }
  }

  /** A delete_id is accepted exactly for an ID that is outstanding and whose object is not live. */
  lemma AcceptedExactly(calls: seq<Call>, i: nat)
    requires i < |calls| && calls[i].DeleteId?
    ensures AnswerAt(calls, i) == Accepted(calls[i].id) <==>
            Outstanding(After(calls, i), calls[i].id) && !calls[i].live
  {
    AlwaysOk(calls, i);
  }

  /** A second delete_id without reallocation is rejected and leaves the allocator as it was. */
  lemma SecondDeleteRejected(calls: seq<Call>, i: nat, j: nat)
    requires i < j < |calls| && calls[j].DeleteId? && AnswerAt(calls, i) == Accepted(calls[j].id)
    requires forall k | i < k < j :: AnswerAt(calls, k) != Returned(calls[j].id)
    ensures AnswerAt(calls, j) == Rejected(calls[j].id) && After(calls, j + 1) == After(calls, j)
  {
    if !Absent(calls, i, j, Returned(calls[j].id)) {
      PresentSomewhere(calls, i, j, Returned(calls[j].id));
    }
    StaysRetired(calls, i, j, calls[j].id);
  }

  /** One call extends the range of IDs by exactly what it returns. */
  lemma StepPacks(a: Allocator, c: Call, id: u32)
    requires Ok(a) && id != 0
    ensures 2 <= id < Step(a, c).next <==> 2 <= id < a.next || AnswerTo(a, c) == Returned(id)
  {
    AllocateOk(a);
  }

  /** Fresh IDs are densely packed: the IDs ever returned are exactly [2, nextID), below the server's range. */
  lemma {:induction false} DenselyPacked(calls: seq<Call>, n: nat, id: u32)
    requires n <= |calls| && id != 0
    ensures After(calls, n).next <= FIRST_SERVER_ID
    ensures 2 <= id < After(calls, n).next <==> exists i :: 0 <= i < n && AnswerAt(calls, i) == Returned(id)
  {
    AlwaysOk(calls, n);
    if n > 0 {
      DenselyPacked(calls, n - 1, id);
      AlwaysOk(calls, n - 1);
      StepPacks(After(calls, n - 1), calls[n - 1], id);
      if AnswerTo(After(calls, n - 1), calls[n - 1]) == Returned(id) {
        assert AnswerAt(calls, n - 1) == Returned(id);
      }
    }
  }
}
