/** Chains of guards: what such a chain decides, and which of its errors it reports. */
module Checks {
  import opened Prelude

  /** One guard: what it asks for, and the error it raises when that does not hold. */
  datatype Check = Check(holds: bool, error: Error)

  ghost predicate AllHold(checks: seq<Check>) {
    forall i :: 0 <= i < |checks| ==> checks[i].holds
  }

  /** `e` is the error of the first check that does not hold. */
  ghost predicate FirstFailure(checks: seq<Check>, e: Error) {
    exists i :: 0 <= i < |checks| && !checks[i].holds && checks[i].error == e
      && forall j :: 0 <= j < i ==> checks[j].holds
  }

  /** The result is Ok exactly when all checks hold, and an error exactly when that of the first to fail. */
  ghost predicate DecidedBy<T(!new)>(r: Result<T>, checks: seq<Check>) {
    && (r.Ok? <==> AllHold(checks))
    && (forall e :: r == Err(e) <==> FirstFailure(checks, e))
  }

  /** Check `i` is the first that does not hold. */
  ghost predicate FailsFirst(checks: seq<Check>, i: int) {
    0 <= i < |checks| && !checks[i].holds && forall j :: 0 <= j < i ==> checks[j].holds
  }

  lemma {:induction false} SomeFailsFirst(checks: seq<Check>, n: nat) returns (i: nat)
    requires n < |checks| && !checks[n].holds
    ensures FailsFirst(checks, i)
  {
    if j :| 0 <= j < n && !checks[j].holds {
      i := SomeFailsFirst(checks, j);
    } else {
      i := n;
    }
  }

  /** To know what a chain decides it is enough to know its result for each check that can fail first. */
  lemma Decided<T(!new)>(r: Result<T>, checks: seq<Check>)
    requires AllHold(checks) ==> r.Ok?
    requires forall i :: FailsFirst(checks, i) ==> r == Err(checks[i].error)
    ensures DecidedBy(r, checks)
  {
    if !AllHold(checks) {
      var n :| 0 <= n < |checks| && !checks[n].holds;
      var i := SomeFailsFirst(checks, n);
      assert FailsFirst(checks, i);
      forall e | FirstFailure(checks, e) ensures r == Err(e) {
        var k :| 0 <= k < |checks| && !checks[k].holds && checks[k].error == e
          && forall j :: 0 <= j < k ==> checks[j].holds;
        assert FailsFirst(checks, k);
      }
    }
  }

  /** A single guard. */
  lemma OneCheck(holds: bool, error: Error)
    ensures DecidedBy(Require(holds, error), [Check(holds, error)])
  {
    var k := [Check(holds, error)];
    assert k[0] == k[0];
    Decided(Require(holds, error), k);
  }

  /** One chain, and then another one. */
  lemma {:induction false} TwoChains<T(!new), U(!new), V(!new)>(r: Result<T>, a: seq<Check>, b: seq<Check>,
                                                               first: Result<U>, second: Result<V>)
    requires DecidedBy(first, a) && (first.Ok? ==> DecidedBy(second, b))
    requires first.Err? ==> r == Err(first.error)
    requires first.Ok? ==> (r.Ok? <==> second.Ok?) && (second.Err? ==> r == Err(second.error))
    ensures DecidedBy(r, a + b)
  {
    var all := a + b;
    assert forall i :: 0 <= i < |a| ==> all[i] == a[i];
    assert forall i :: 0 <= i < |b| ==> all[|a| + i] == b[i];
    if first.Err? {
      var i :| 0 <= i < |a| && !a[i].holds && a[i].error == first.error && forall j :: 0 <= j < i ==> a[j].holds;
      assert !all[i].holds && forall j :: 0 <= j < i ==> all[j].holds;
      assert FirstFailure(all, first.error);
    } else {
      forall e ensures FirstFailure(all, e) <==> FirstFailure(b, e) {
        if i :| 0 <= i < |b| && !b[i].holds && b[i].error == e && forall j :: 0 <= j < i ==> b[j].holds {
          assert !all[|a| + i].holds;
          forall j | 0 <= j < |a| + i ensures all[j].holds {
            if j >= |a| { assert all[j] == b[j - |a|]; }
          }
        }
        if i :| 0 <= i < |all| && !all[i].holds && all[i].error == e && forall j :: 0 <= j < i ==> all[j].holds {
          assert i >= |a| && all[i] == b[i - |a|];
          forall j | 0 <= j < i - |a| ensures b[j].holds { assert all[|a| + j] == b[j]; }
        }
      }
      if second.Ok? {
        forall i | 0 <= i < |all| ensures all[i].holds {
          if i >= |a| { assert all[i] == b[i - |a|]; }
        }
      }
      if AllHold(all) {
        forall i | 0 <= i < |b| ensures b[i].holds { assert all[|a| + i] == b[i]; }
      }
    }
  }
}
