/** pkg/syncer/generic.go: how reverse patches are written back to the host object, and when that comes to rest. */
module ReversePatches {
  import opened Strings

  /** An object as far as writing it is concerned: its status, if any, and the rest. */
  datatype Object = Object(status: Option<string>, rest: string)

  datatype Outcome = Unchanged | UpdatedStatusOnly | Updated

  /** The API server keeps the other part: a status write changes the status, an object write all but the status. */
  function Written(outcome: Outcome, subresource: bool, before: Object, after: Object): Object {
    match outcome
    case Unchanged => before
    case UpdatedStatusOnly => before.(status := after.status)
    case Updated => if subresource then before.(rest := after.rest) else after
  }

  /** One application of the reverse patches: a changed status is written alone, then the rest, one write a time. */
  method ApplyReversePatches(subresource: bool, patch: Object -> Object, from: Object) returns (outcome: Outcome)
    ensures outcome.UpdatedStatusOnly? <==> subresource && patch(from).status != from.status
    ensures outcome.Unchanged? <==> patch(from) == from
  {
    var copied := patch(from);
    var original := from;
    if subresource {
      if (from.status.Some? || copied.status.Some?) && from.status != copied.status {
        return UpdatedStatusOnly;
      }
      copied := copied.(status := None);
      original := original.(status := None);
    }
    if original != copied {
      return Updated;
    }
    return Unchanged;
  }

  /** The object with the status its patches give it: what a status write leaves. */
  function WithStatus(patch: Object -> Object, o: Object): Object {
    o.(status := patch(o).status)
  }

  /**
   The exact condition for coming to rest. With a status subresource: once the status was written alone, the
   patches leave it alone, and what they make of the rest is final. Without: patching twice is patching once.
   */
  ghost predicate Settling(subresource: bool, patch: Object -> Object) {
    forall o: Object :: SettlesAt(subresource, patch, o)
  }

  ghost predicate SettlesAt(subresource: bool, patch: Object -> Object, o: Object) {
    if subresource then
      var o1 := WithStatus(patch, o);
      patch(o1).status == o1.status && patch(patch(o1)) == patch(o1)
    else patch(patch(o)) == patch(o)
  }

  /**
   While nobody else writes, repeated reconciles write the status at most once and the object at most once, in
   this order, and then leave the object alone, so that the forward patches get their turn.
   */
  method SyncUntilQuiet(subresource: bool, patch: Object -> Object, from: Object)
    returns (now: Object, statusWrites: nat, objectWrites: nat)
    requires Settling(subresource, patch)
    ensures patch(now) == now
    ensures statusWrites == if subresource && patch(from).status != from.status then 1 else 0
    ensures objectWrites <= 1
    ensures now == if subresource then patch(WithStatus(patch, from)) else patch(from)
  {
    assert SettlesAt(subresource, patch, from);
    now, statusWrites, objectWrites := from, 0, 0;
    while true
      invariant objectWrites == 0 && statusWrites <= 1
      invariant statusWrites == 0 ==> now == from
      invariant statusWrites == 1 ==> subresource && patch(from).status != from.status && now == WithStatus(patch, from)
      decreases 1 - statusWrites
    {
      var outcome := ApplyReversePatches(subresource, patch, now);
      if outcome.Unchanged? {
        assert statusWrites == 0 ==> WithStatus(patch, from) == from;
        return;
      }
      var next := Written(outcome, subresource, now, patch(now));
      if outcome.UpdatedStatusOnly? {
        statusWrites := statusWrites + 1;
        now := next;
      } else {
        assert statusWrites == 0 && subresource ==> WithStatus(patch, from) == from;
        assert next == patch(now);
        now := next;
        objectWrites := objectWrites + 1;
        return;
      }
    }
  }

  // ----- when reconciles come to rest

  function OutcomeOf(subresource: bool, patch: Object -> Object, o: Object): Outcome {
    if subresource && patch(o).status != o.status then UpdatedStatusOnly
    else if patch(o) != o then Updated
    else Unchanged
  }

  /** The object after n reconciles. */
  function After(subresource: bool, patch: Object -> Object, from: Object, n: nat): Object {
    if n == 0 then from
    else
      var o := After(subresource, patch, from, n - 1);
      Written(OutcomeOf(subresource, patch, o), subresource, o, patch(o))
  }

  function OutcomeAt(subresource: bool, patch: Object -> Object, from: Object, n: nat): Outcome {
    OutcomeOf(subresource, patch, After(subresource, patch, from, n))
  }

  /** The status is written first or never, and the object at most once. */
  ghost predicate ComesToRest(subresource: bool, patch: Object -> Object, from: Object) {
    && (forall n: nat :: OutcomeAt(subresource, patch, from, n).UpdatedStatusOnly? ==> n == 0)
    && forall m: nat, n: nat :: m < n && OutcomeAt(subresource, patch, from, m).Updated? ==>
         !OutcomeAt(subresource, patch, from, n).Updated?
  }

  lemma {:induction false} FixedStays(subresource: bool, patch: Object -> Object, from: Object, k: nat, n: nat)
    requires var o := After(subresource, patch, from, k); patch(o) == o
    requires k <= n
    ensures After(subresource, patch, from, n) == After(subresource, patch, from, k)
    ensures OutcomeAt(subresource, patch, from, n).Unchanged?
  {
    if k < n {
      FixedStays(subresource, patch, from, k, n - 1);
    }
  }

  lemma {:induction false} SettlingRests(subresource: bool, patch: Object -> Object, from: Object)
    requires Settling(subresource, patch)
    ensures ComesToRest(subresource, patch, from)
  {
    assert SettlesAt(subresource, patch, from);
    var first := OutcomeAt(subresource, patch, from, 0);
    assert After(subresource, patch, from, 0) == from;
    var k := if first.UpdatedStatusOnly? then 2 else 1;
    var o1 := WithStatus(patch, from);
    assert After(subresource, patch, from, 1) == Written(first, subresource, from, patch(from));
    if first.UpdatedStatusOnly? {
      assert After(subresource, patch, from, 1) == o1;
      assert After(subresource, patch, from, 2) == patch(o1);
    } else {
      assert subresource ==> o1 == from;
      assert After(subresource, patch, from, 1) == patch(from);
    }
    forall n: nat | n >= k
      ensures OutcomeAt(subresource, patch, from, n).Unchanged?
    {
      FixedStays(subresource, patch, from, k, n);
    }
  }

  lemma {:induction false} RestsAreSettling(subresource: bool, patch: Object -> Object, o: Object)
    requires forall from :: ComesToRest(subresource, patch, from)
    ensures subresource ==> patch(WithStatus(patch, o)).status == patch(o).status
    ensures var o1 := if subresource then WithStatus(patch, o) else o; patch(patch(o1)) == patch(o1)
  {
    var o1 := if subresource then WithStatus(patch, o) else o;
    assert ComesToRest(subresource, patch, o) && ComesToRest(subresource, patch, o1);
    assert After(subresource, patch, o, 0) == o && After(subresource, patch, o1, 0) == o1;
    if subresource && patch(o).status != o.status {
      assert OutcomeAt(subresource, patch, o, 0) == UpdatedStatusOnly;
      assert After(subresource, patch, o, 1) == o1;
      assert !OutcomeAt(subresource, patch, o, 1).UpdatedStatusOnly?;
    } else {
      assert o1 == o;
    }
    if patch(o1) != o1 {
      assert OutcomeAt(subresource, patch, o1, 0) == Updated;
      assert After(subresource, patch, o1, 1) == patch(o1);
      assert OutcomeAt(subresource, patch, o1, 1).Unchanged?;
    }
  }

  /**
   Exactly the settling patches come to rest from every object: with at most one status write, first, and at
   most one object write, whether or not the status is a subresource.
   */
  lemma {:induction false} RestExactly(subresource: bool, patch: Object -> Object)
    ensures (forall from :: ComesToRest(subresource, patch, from)) <==> Settling(subresource, patch)
  {
    if forall from :: ComesToRest(subresource, patch, from) {
      forall o: Object
        ensures SettlesAt(subresource, patch, o)
      {
        RestsAreSettling(subresource, patch, o);
      }
    }
    if Settling(subresource, patch) {
      forall from
        ensures ComesToRest(subresource, patch, from)
      {
        SettlingRests(subresource, patch, from);
      }
    }
  }

  /** Reverse patches that answer every status with the other one, unless the rest has been patched too. */
  function Seesaw(o: Object): Object {
    if o.rest == "done" then o
    else Object(if o.status == Some("a") then Some("b") else Some("a"), "done")
  }

  /** That patching twice is patching once is not enough: the status may be written forever and the rest never. */
  lemma {:induction false} IdempotenceIsNotEnough(n: nat)
    ensures forall o :: Seesaw(Seesaw(o)) == Seesaw(o)
    ensures After(true, Seesaw, Object(Some("a"), "new"), n) == Object(Some(if n % 2 == 0 then "a" else "b"), "new")
  {
    if n > 0 {
      IdempotenceIsNotEnough(n - 1);
    }
  }

  /** Reverse patches that settle although patching twice is not patching once. */
  function Late(o: Object): Object {
    if o.status == Some("s") then Object(Some("s"), "r") else Object(Some("s"), "x")
  }

  lemma {:induction false} IdempotenceIsNotNeeded()
    ensures Settling(true, Late)
    ensures var o := Object(None, ""); Late(Late(o)) != Late(o)
  {
  }
}
