/**
 * A write-once lazy slot: absent until a computation succeeds, then cached for good.
 * `Force` is one call of a check-then-assign accessor; `Calls` is a run of such calls,
 * each with the result the computation would give at that moment.
 */
module OnceCell {
  import opened Wrappers

  /** One call: what it returns, the slot afterwards, and whether it ran the computation. */
  datatype Step<T, E> = Step(result: Result<T, E>, slot: Option<T>, ran: bool)

  function Force<T, E>(slot: Option<T>, compute: Result<T, E>): (s: Step<T, E>)
    ensures slot.Some? ==> s == Step(Success(slot.value), slot, false)
    ensures slot.None? ==> s.ran && s.result == compute
    ensures s.result.Success? ==> s.slot == Some(s.result.value)
    ensures s.result.Failure? ==> s.slot == None
  {
    match slot
    case Some(v) => Step(Success(v), slot, false)
    case None => Step(compute, compute.ToOption(), true)
  }

  /** Successive calls on one slot; call i would compute `computes[i]` if it ran. */
  function Calls<T, E>(slot: Option<T>, computes: seq<Result<T, E>>): (steps: seq<Step<T, E>>)
    ensures |steps| == |computes|
    ensures forall i :: 0 <= i < |steps| && steps[i].ran ==> steps[i].result == computes[i]
    decreases |computes|
  {
    if computes == [] then []
    else
      var s := Force(slot, computes[0]);
      [s] + Calls(s.slot, computes[1..])
  }

  /** The slot after a run of calls. */
  function After<T, E>(slot: Option<T>, computes: seq<Result<T, E>>): Option<T>
    decreases |computes|
  {
    if computes == [] then slot else After(Force(slot, computes[0]).slot, computes[1..])
  }

  /** A cached value is returned by every later call, which computes nothing. */
  lemma {:induction false} CallsOnCachedSlot<T, E>(slot: Option<T>, computes: seq<Result<T, E>>)
    requires slot.Some?
    ensures forall i :: 0 <= i < |computes| ==> Calls(slot, computes)[i] == Step(Success(slot.value), slot, false)
    ensures After(slot, computes) == slot
    decreases |computes|
  {
    if computes != [] {
      CallsOnCachedSlot(slot, computes[1..]);
      var steps := Calls(slot, computes);
      assert forall i :: 1 <= i < |steps| ==> steps[i] == Calls(slot, computes[1..])[i - 1];
    }
  }

  /** After the first success every later call returns that same value and computes nothing. */
  lemma {:induction false} CallsStable<T, E>(slot: Option<T>, computes: seq<Result<T, E>>)
    ensures forall i, j :: 0 <= i < j < |computes| && Calls(slot, computes)[i].result.Success? ==>
      Calls(slot, computes)[j].result == Calls(slot, computes)[i].result && !Calls(slot, computes)[j].ran
    decreases |computes|
  {
    if computes != [] {
      var s := Force(slot, computes[0]);
      var rest := Calls(s.slot, computes[1..]);
      var steps := Calls(slot, computes);
      assert steps == [s] + rest;
      CallsStable(s.slot, computes[1..]);
      if s.result.Success? {
        CallsOnCachedSlot(s.slot, computes[1..]);
      }
      forall i, j | 0 <= i < j < |steps| && steps[i].result.Success?
        ensures steps[j].result == steps[i].result && !steps[j].ran
      {
        assert steps[j] == rest[j - 1];
        if i > 0 {
          assert steps[i] == rest[i - 1];
          assert rest[j - 1].result == rest[i - 1].result && !rest[j - 1].ran;
        } else {
          assert rest[j - 1] == Step(Success(s.slot.value), s.slot, false);
        }
      }
    }
  }

  /** On an absent slot, a call runs the computation exactly when every earlier call failed. */
  lemma {:induction false} CallsRetryUntilSuccess<T, E>(slot: Option<T>, computes: seq<Result<T, E>>)
    requires slot.None?
    ensures forall i :: 0 <= i < |computes| ==>
      (Calls(slot, computes)[i].ran <==> forall j :: 0 <= j < i ==> Calls(slot, computes)[j].result.Failure?)
    decreases |computes|
  {
    if computes != [] {
      var s := Force(slot, computes[0]);
      var rest := Calls(s.slot, computes[1..]);
      var steps := Calls(slot, computes);
      assert steps == [s] + rest;
      if s.result.Success? {
        CallsOnCachedSlot(s.slot, computes[1..]);
        forall i | 0 < i < |steps| ensures !steps[i].ran && steps[0].result.Success? {
          assert steps[i] == rest[i - 1];
        }
      } else {
        CallsRetryUntilSuccess(s.slot, computes[1..]);
        forall i | 0 < i < |steps|
          ensures steps[i].ran <==> forall j :: 0 <= j < i ==> steps[j].result.Failure?
        {
          assert steps[i] == rest[i - 1];
          assert forall j :: 0 < j < i ==> steps[j] == rest[j - 1];
          assert (forall j :: 0 <= j < i ==> steps[j].result.Failure?) <==>
            (forall j :: 0 <= j < i - 1 ==> rest[j].result.Failure?);
        }
      }
    }
  }

  /**
   * The slot stays absent exactly when it started absent and every computation
   * failed: a failure never fills it, and the first success does.
   */
  lemma {:induction false} AfterAbsentIffAllFailed<T, E>(slot: Option<T>, computes: seq<Result<T, E>>)
    ensures After(slot, computes).None? <==>
      slot.None? && forall i :: 0 <= i < |computes| ==> computes[i].Failure?
    decreases |computes|
  {
    if slot.Some? {
      CallsOnCachedSlot(slot, computes);
    } else if computes != [] {
      var s := Force(slot, computes[0]);
      if s.result.Failure? {
        AfterAbsentIffAllFailed(s.slot, computes[1..]);
        assert forall k :: 0 <= k < |computes| - 1 ==> computes[1..][k] == computes[k + 1];
      } else {
        CallsOnCachedSlot(s.slot, computes[1..]);
      }
    }
  }

  /** The slot after a non-empty run is the slot its last call leaves behind. */
  lemma {:induction false} AfterIsLastSlot<T, E>(slot: Option<T>, computes: seq<Result<T, E>>)
    requires computes != []
    ensures After(slot, computes) == Calls(slot, computes)[|computes| - 1].slot
    decreases |computes|
  {
    var s := Force(slot, computes[0]);
    if |computes| > 1 {
      AfterIsLastSlot(s.slot, computes[1..]);
      assert Calls(slot, computes)[|computes| - 1] == Calls(s.slot, computes[1..])[|computes| - 2];
    }
  }
}
