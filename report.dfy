/** The size report: a mapping from a resource's URL to its size in bytes. */
module Report {

  type PageSize = map<string, int>

  /** The sum of all sizes in the report, taking the keys in an arbitrary
      order (the result does not depend on it, see SumRemove). */
  ghost function Sum(ps: PageSize): int
    decreases |ps|
  {
    if ps == map[] then 0
    else
      var k :| k in ps;
      ps[k] + Sum(ps - {k})
  }

  /** The entries of `ps` whose keys are in `keys`. */
  function Restrict(ps: PageSize, keys: set<string>): (r: PageSize)
    ensures r.Keys == ps.Keys * keys
    ensures forall k :: k in r ==> r[k] == ps[k]
  {
    map k | k in ps && k in keys :: ps[k]
  }

  /** Any entry can be taken out first. */
  lemma {:induction false} SumRemove(ps: PageSize, k: string)
    requires k in ps
    ensures Sum(ps) == ps[k] + Sum(ps - {k})
    decreases |ps|
  {
    var j :| j in ps && Sum(ps) == ps[j] + Sum(ps - {j});
    if j != k {
      SumRemove(ps - {j}, k);
      SumRemove(ps - {k}, j);
      assert (ps - {j}) - {k} == (ps - {k}) - {j};
    }
  }

  /** Storing `v` under `k` replaces that key's old contribution by `v`. */
  lemma SumUpdate(ps: PageSize, k: string, v: int)
    ensures Sum(ps[k := v]) == Sum(ps) - (if k in ps then ps[k] else 0) + v
  {
    SumRemove(ps[k := v], k);
    assert ps[k := v] - {k} == ps - {k};
    if k in ps {
      SumRemove(ps, k);
    } else {
      assert ps - {k} == ps;
    }
  }

  /** With sizes that are never negative, the total is at least every entry
      (and so at least zero). */
  lemma {:induction false} SumBoundsEntries(ps: PageSize)
    requires forall k :: k in ps ==> ps[k] >= 0
    ensures Sum(ps) >= 0
    ensures forall k :: k in ps ==> ps[k] <= Sum(ps)
    decreases |ps|
  {
    if ps != map[] {
      var j :| j in ps;
      SumRemove(ps, j);
      SumBoundsEntries(ps - {j});
      forall k | k in ps ensures ps[k] <= Sum(ps) {
        if k != j {
          assert k in ps - {j};
        }
      }
    }
  }

  /** PageSize.Total: adds up the sizes while ranging over the report in
      whatever order the map yields them. */
  method Total(ps: PageSize) returns (out: int)
    ensures out == Sum(ps)
    ensures ps == map[] ==> out == 0
  {
    out := 0;
    var pending := ps.Keys;
    assert Restrict(ps, pending) == ps;
    while pending != {}
      invariant pending <= ps.Keys
      invariant out + Sum(Restrict(ps, pending)) == Sum(ps)
      decreases pending
    {
      var k :| k in pending;
      var before := Restrict(ps, pending);
      SumRemove(before, k);
      assert before - {k} == Restrict(ps, pending - {k});
      out := out + ps[k];
      pending := pending - {k};
    }
    assert Restrict(ps, pending) == map[];
  }
}
