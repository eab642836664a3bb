/** Finding the typed SPM error that a chain of exceptions wraps. */
module SpmErrors {
  import opened Outcome

  datatype Detail = Detail(code: string, message: string)

  /** An exception: its detail, if it is a typed SPM error, and the exceptions it was raised from or during. */
  datatype Raised = Raised(detail: Option<Detail>, cause: Option<nat>, context: Option<nat>)

  type Errors = map<nat, Raised>

  function Next(raised: Raised): Option<nat> { if raised.cause.Some? then raised.cause else raised.context }

  ghost predicate Linked(errors: Errors) {
    forall id :: id in errors && Next(errors[id]).Some? ==> Next(errors[id]).value in errors
  }

  /** The exception `k` links down the chain; a chain may run in a circle. */
  ghost function Along(errors: Errors, start: Option<nat>, k: nat): (id: Option<nat>)
    requires Linked(errors) && (start.Some? ==> start.value in errors)
    ensures id.Some? ==> id.value in errors
  {
    if k == 0 then start
    else
      var before := Along(errors, start, k - 1);
      if before.None? then None else Next(errors[before.value])
  }

  /** The chain goes on with what an exception was raised from or, if it was raised from nothing, with
      the one it was raised during; it ends where there is neither. */
  lemma ChainFollowsCauses(errors: Errors, start: Option<nat>, k: nat)
    requires Linked(errors) && (start.Some? ==> start.value in errors) && Along(errors, start, k).Some?
    ensures var raised, next := errors[Along(errors, start, k).value], Along(errors, start, k + 1);
            && (raised.cause.Some? ==> next == raised.cause)
            && (raised.cause.None? ==> next == raised.context)
  {
  }

  /** The typed error at this place of the chain, if there is one. */
  ghost function DetailAt(errors: Errors, start: Option<nat>, k: nat): Option<Detail>
    requires Linked(errors) && (start.Some? ==> start.value in errors)
  {
    var id := Along(errors, start, k);
    if id.None? then None else errors[id.value].detail
  }

  ghost predicate VisitedBefore(errors: Errors, start: Option<nat>, k: nat, visited: set<nat>)
    requires Linked(errors) && (start.Some? ==> start.value in errors)
  {
    && (forall j :: 0 <= j < k ==> Along(errors, start, j).Some? && Along(errors, start, j).value in visited)
    && forall id :: id in visited ==> id in errors && exists j :: 0 <= j < k && Along(errors, start, j) == Some(id)
  }

  /** Once the chain comes back to an exception it never reaches a new one, and once ended it stays ended. */
  lemma {:induction false} CircleStays(errors: Errors, start: Option<nat>, k: nat, visited: set<nat>, n: nat)
    requires Linked(errors) && (start.Some? ==> start.value in errors)
    requires VisitedBefore(errors, start, k, visited)
    requires Along(errors, start, k).None? || Along(errors, start, k).value in visited
    ensures Along(errors, start, n).None? || Along(errors, start, n).value in visited
  {
    if n > k {
      CircleStays(errors, start, k, visited, n - 1);
      var before := Along(errors, start, n - 1);
      if before.Some? {
        var j :| 0 <= j < k && Along(errors, start, j) == before;
        assert Along(errors, start, j + 1) == Along(errors, start, n);
      }
    }
  }

  /** Recognises the first typed error of the chain, however it is wrapped, and ends on every
      chain: without an answer exactly if no exception of the chain is typed. */
  method SpmErrorDetail(errors: Errors, start: Option<nat>) returns (r: Option<Detail>)
    requires Linked(errors) && (start.Some? ==> start.value in errors)
    ensures r.None? <==> forall k: nat :: DetailAt(errors, start, k).None?
    ensures r.Some? ==> exists k: nat :: DetailAt(errors, start, k) == r
                                         && forall j: nat :: j < k ==> DetailAt(errors, start, j).None?
  {
    var visited: set<nat> := {};
    var error := start;
    ghost var k: nat := 0;
    while error.Some? && error.value !in visited
      invariant error == Along(errors, start, k)
      invariant VisitedBefore(errors, start, k, visited)
      invariant forall j: nat :: j < k ==> DetailAt(errors, start, j).None?
      decreases errors.Keys - visited
    {
      visited := visited + {error.value};
      if errors[error.value].detail.Some? {
        assert DetailAt(errors, start, k) == errors[error.value].detail;
        return errors[error.value].detail;
      }
      error := Next(errors[error.value]);
      k := k + 1;
    }
    forall n: nat ensures DetailAt(errors, start, n).None? {
      CircleStays(errors, start, k, visited, n);
      var id := Along(errors, start, n);
      if id.Some? {
        var j :| 0 <= j < k && Along(errors, start, j) == id;
        assert DetailAt(errors, start, j).None?;
      }
    }
    return None;
  }
}
