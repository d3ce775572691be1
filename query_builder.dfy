/** The WHERE clause an Eloquent builder accumulates. Each `where`/`orWhere`
    call appends one clause to a flat list, tagged with the connective that
    joins it to what came before; the SQL text is the clauses joined by those
    connectives, so `AND` binds tighter than `OR`. Calling a local scope
    (`$query->lowStock()`) goes through Eloquent's `callScope`, which wraps
    the clauses before the call, and the scope's own clauses, each in
    parentheses when the slice contains an `OR`. */
module QueryBuilder {
  import opened Basics

  datatype Connective = And | Or

  /** One clause; `test` is its truth value on a row. The connective of the
      first clause of a list is not printed. */
  datatype Where<!R> = Where(conn: Connective, test: R -> bool)

  /** Reading a WHERE list left to right: `closed` is the disjunction of the
      AND-groups already ended by an `OR`, `open` the conjunction of the
      group in progress. */
  datatype Scan = Scan(closed: bool, open: bool)

  function ScanWheres<R>(ws: seq<Where<R>>, r: R): Scan
    requires |ws| > 0
  {
    var w := ws[|ws| - 1];
    if |ws| == 1 then Scan(false, w.test(r))
    else
      var s := ScanWheres(ws[..|ws| - 1], r);
      if w.conn == Or then Scan(s.closed || s.open, w.test(r))
      else Scan(s.closed, s.open && w.test(r))
  }

  /** Whether row `r` satisfies the WHERE list; an empty list is no WHERE at all. */
  predicate Holds<R>(ws: seq<Where<R>>, r: R) {
    if ws == [] then true else var s := ScanWheres(ws, r); s.closed || s.open
  }

  /** Appending one clause, in terms of the scan of the list before it. */
  lemma ScanSnoc<R>(ws: seq<Where<R>>, w: Where<R>, r: R)
    requires |ws| > 0
    ensures ScanWheres(ws + [w], r)
         == if w.conn == Or then Scan(ScanWheres(ws, r).closed || ScanWheres(ws, r).open, w.test(r))
            else Scan(ScanWheres(ws, r).closed, ScanWheres(ws, r).open && w.test(r))
  {
    assert (ws + [w])[..|ws|] == ws;
  }

  predicate NoOr<R>(ws: seq<Where<R>>) {
    forall k :: 0 <= k < |ws| ==> ws[k].conn == And
  }

  /** Every clause after the first is joined by AND. */
  predicate JoinedByAnd<R>(ws: seq<Where<R>>) {
    forall k :: 1 <= k < |ws| ==> ws[k].conn == And
  }

  predicate AllHold<R>(ws: seq<Where<R>>, r: R) {
    forall k :: 0 <= k < |ws| ==> ws[k].test(r)
  }

  /** A list whose clauses after the first are all joined by AND is the
      conjunction of its clauses. */
  lemma {:induction false} ConjunctionHolds<R>(ws: seq<Where<R>>, r: R)
    requires JoinedByAnd(ws)
    ensures Holds(ws, r) <==> AllHold(ws, r)
    ensures |ws| > 0 ==> !ScanWheres(ws, r).closed && ScanWheres(ws, r).open == AllHold(ws, r)
  {
    if |ws| > 1 {
      var init := ws[..|ws| - 1];
      assert JoinedByAnd(init) by {
        forall k | 1 <= k < |init| ensures init[k].conn == And {
          assert init[k] == ws[k];
        }
      }
      ConjunctionHolds(init, r);
      assert AllHold(ws, r) <==> AllHold(init, r) && ws[|ws| - 1].test(r) by {
        if AllHold(init, r) && ws[|ws| - 1].test(r) {
          forall k | 0 <= k < |ws| ensures ws[k].test(r) {
            if k < |ws| - 1 { assert ws[k] == init[k]; }
          }
        }
        if AllHold(ws, r) {
          forall k | 0 <= k < |init| ensures init[k].test(r) {
            assert init[k] == ws[k];
          }
        }
      }
    }
  }

  /** `groupWhereSliceForScope`: a slice holding an OR becomes one
      parenthesised clause, carrying the connective of the slice's first
      clause; otherwise its clauses stay as they are. */
  function GroupForScope<R>(slice: seq<Where<R>>): (g: seq<Where<R>>)
    ensures |slice| == 0 ==> g == []
    ensures |g| <= |slice|
    ensures JoinedByAnd(g)
    ensures |g| > 0 ==> g[0].conn == slice[0].conn
  {
    if NoOr(slice) then slice
    else [Where(slice[0].conn, (x: R) => Holds(slice, x))]
  }

  /** Wrapping a slice never changes what it admits on its own. */
  lemma GroupKeepsMeaning<R>(slice: seq<Where<R>>, r: R)
    ensures Holds(GroupForScope(slice), r) == Holds(slice, r)
  {
    if NoOr(slice) {
    } else {
      var g := GroupForScope(slice);
      assert |g| == 1 && g[0].test(r) == Holds(slice, r);
    }
  }

  /** `callScope`: the clauses a scope adds, after the ones already there. */
  function ApplyScope<R>(ws: seq<Where<R>>, scope: seq<Where<R>>): seq<Where<R>> {
    GroupForScope(ws) + GroupForScope(scope)
  }

  lemma AllHoldAppend<R>(a: seq<Where<R>>, b: seq<Where<R>>, r: R)
    ensures AllHold(a + b, r) <==> AllHold(a, r) && AllHold(b, r)
  {
    if AllHold(a, r) && AllHold(b, r) {
      forall k | 0 <= k < |a + b| ensures (a + b)[k].test(r) {
        if k >= |a| { assert (a + b)[k] == b[k - |a|]; }
      }
    }
    if AllHold(a + b, r) {
      forall k | 0 <= k < |a| ensures a[k].test(r) {
        assert (a + b)[k] == a[k];
      }
      forall k | 0 <= k < |b| ensures b[k].test(r) {
        assert (a + b)[|a| + k] == b[k];
      }
    }
  }

  lemma JoinedByAndAppend<R>(a: seq<Where<R>>, b: seq<Where<R>>)
    requires JoinedByAnd(a) && JoinedByAnd(b)
    requires |a| > 0 && |b| > 0 ==> b[0].conn == And
    ensures JoinedByAnd(a + b)
  {
    forall k | 1 <= k < |a + b| ensures (a + b)[k].conn == And {
      if k >= |a| { assert (a + b)[k] == b[k - |a|]; }
    }
  }

  /** A scope whose first clause is an AND restricts every row the earlier
      clauses admit, whatever ORs they contain. */
  lemma ScopeConjoins<R>(ws: seq<Where<R>>, scope: seq<Where<R>>, r: R)
    requires |scope| > 0 ==> scope[0].conn == And
    ensures Holds(ApplyScope(ws, scope), r) <==> Holds(ws, r) && Holds(scope, r)
  {
    var g1, g2 := GroupForScope(ws), GroupForScope(scope);
    JoinedByAndAppend(g1, g2);
    ConjunctionHolds(g1 + g2, r);
    ConjunctionHolds(g1, r);
    ConjunctionHolds(g2, r);
    AllHoldAppend(g1, g2, r);
    GroupKeepsMeaning(ws, r);
    GroupKeepsMeaning(scope, r);
  }
}
