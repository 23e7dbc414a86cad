/**
 * The HTTP method allow-list middleware
 * (internal/handler/http/middleware/common.go). MethodNotAllowed collects
 * the listed methods into a set once; the filter it returns passes a request
 * whose method is in the set on to the next handler and answers every other
 * request with 405 and the method-not-allowed error, without calling the
 * next handler.
 */
module Middleware {

  const StatusMethodNotAllowed := 405
  const ErrMethodNotAllowed := "method not allowed"

  /** What the filter does with a request. */
  datatype Outcome =
    | Forward
    | Reject(status: int, error: string)

  /** The methods a list allows: exactly its members. */
  ghost function AllowedBy(methods: seq<string>): set<string>
  {
    set m | m in methods
  }

  /** Builds the allowed set from the list, one method at a time. */
  method MethodNotAllowed(methods: seq<string>) returns (allowed: set<string>)
    ensures allowed == AllowedBy(methods)
  {
    allowed := {};
    var i := 0;
    while i < |methods|
      invariant 0 <= i <= |methods|
      invariant allowed == AllowedBy(methods[..i])
    {
      assert methods[..i + 1] == methods[..i] + [methods[i]];
      allowed := allowed + {methods[i]};
      i := i + 1;
    }
    assert methods[..i] == methods;
  }

  /** The filter: forward an allowed method, otherwise 405 with the error. */
  function Filter(allowed: set<string>, verb: string): (o: Outcome)
    ensures o.Forward? <==> verb in allowed
    ensures o.Reject? ==> o == Reject(StatusMethodNotAllowed, ErrMethodNotAllowed)
  {
    if verb in allowed then Forward else Reject(StatusMethodNotAllowed, ErrMethodNotAllowed)
  }

  /** A request through a filter built from `methods` reaches the next handler exactly when its method is listed. */
  method Serve(methods: seq<string>, verb: string) returns (o: Outcome)
    ensures o.Forward? <==> verb in methods
    ensures o.Reject? ==> o.status == StatusMethodNotAllowed && o.error == ErrMethodNotAllowed
  {
    var allowed := MethodNotAllowed(methods);
    o := Filter(allowed, verb);
  }

  /** With no methods listed every request is rejected. */
  lemma NothingListedRejectsAll(verb: string)
    ensures Filter(AllowedBy([]), verb) == Reject(StatusMethodNotAllowed, ErrMethodNotAllowed)
  {
  }

  /** Only membership matters: lists with the same members, in any order or multiplicity, filter alike. */
  lemma SameMembersSameFilter(a: seq<string>, b: seq<string>, verb: string)
    requires forall m :: m in a <==> m in b
    ensures Filter(AllowedBy(a), verb) == Filter(AllowedBy(b), verb)
  {
  }

  /** Repeating a listed method changes nothing. */
  lemma DuplicatesIrrelevant(methods: seq<string>, m: string)
    requires m in methods
    ensures AllowedBy(methods + [m]) == AllowedBy(methods)
  {
  }
}
