/**
  `Object.lookup` (occam.py:14-30): depth-first search of a descriptor tree for
  the first node whose `type` and `index` equal the query, trying the node
  itself, then each `input` subtree, then each `output` subtree, in array order.

  Three Python details are kept:
  - `data is None` (a null node) makes the search start over at the document
    root; what that restart returns is the parameter `onNull`. A restart that
    itself reaches a null starts over again along the same path and never
    returns, which is `Err(RecursionError)` (see `LookupRoot`).
  - every visited node gets `data.get(...)`, so reaching a value that is not a
    dict raises;
  - whatever `input`/`output` holds is iterated, so a non-empty dict or string
    there yields a string to visit (which raises), and a number or bool is not
    iterable (which raises too).

  The reference semantics is `Walk`, the pre-order enumeration of everything
  the search visits, scanned by `FirstHit`; `LookupIsFirstHit` ties the two.
 */
module Locate {
  import opened PyJson

  /** `data.get('type') == type and data.get('index') == index`. */
  predicate Matches(node: Json, qt: Json, qi: Json)
  {
    node.JObj? && PyEq(GetOr(node, "type", JNull), qt) && PyEq(GetOr(node, "index", JNull), qi)
  }

  /** A member value is structurally smaller than the object holding it. */
  lemma MemberSmaller(t: Json, k: string)
    requires t.JObj? && Get(t.members, k).Some?
    ensures Get(t.members, k).value < t
  {
    GetMember(t.members, k);
    var i :| 0 <= i < |t.members| && t.members[i] == (k, Get(t.members, k).value);
    assert t.members[i] in t.members;
  }

  /* ---------------- the search as written ---------------- */

  function Lookup(qt: Json, qi: Json, data: Json, onNull: Result<Option<Json>>): Result<Option<Json>>
    decreases data, 2, 0
  {
    if data == JNull then onNull
    else if !data.JObj? then Err(AttributeError("object has no attribute 'get'"))
    else if Matches(data, qt, qi) then Ok(Some(data))
    else
      var fromInputs :- LookupEdges(qt, qi, data, "input", onNull);
      if fromInputs.Some? then Ok(fromInputs)
      else LookupEdges(qt, qi, data, "output", onNull)
  }

  /** `for x in data.get(key, []): ...` */
  function LookupEdges(qt: Json, qi: Json, data: Json, key: string, onNull: Result<Option<Json>>): Result<Option<Json>>
    requires data.JObj?
    decreases data, 1, 0
  {
    match Get(data.members, key)
    case None => Ok(None)
    case Some(v) =>
      MemberSmaller(data, key);
      LookupIn(qt, qi, v, onNull)
  }

  function LookupIn(qt: Json, qi: Json, v: Json, onNull: Result<Option<Json>>): Result<Option<Json>>
    decreases v, 1, 1
  {
    match v
    case JArr(xs) => LookupList(qt, qi, xs, 0, onNull)
    case JObj(ms) => if |ms| == 0 then Ok(None) else Err(AttributeError("'str' object has no attribute 'get'"))
    case JStr(s) => if |s| == 0 then Ok(None) else Err(AttributeError("'str' object has no attribute 'get'"))
    case _ => Err(TypeError("object is not iterable"))
  }

  function LookupList(qt: Json, qi: Json, xs: seq<Json>, i: nat, onNull: Result<Option<Json>>): Result<Option<Json>>
    requires i <= |xs|
    decreases JArr(xs), 0, |xs| - i
  {
    if i == |xs| then Ok(None)
    else
      var here :- Lookup(qt, qi, xs[i], onNull);
      if here.Some? then Ok(here) else LookupList(qt, qi, xs, i + 1, onNull)
  }

  /** `lookup(type, index)` with `data` left as None: the search from the
      document root, where reaching a null recurses without end. */
  function LookupRoot(qt: Json, qi: Json, major: Json): Result<Option<Json>>
  {
    Lookup(qt, qi, major, Err(RecursionError))
  }

  /** `lookup(type, index, data)` for the helper's document `major`. */
  function ObjectLookup(qt: Json, qi: Json, major: Json, data: Json): Result<Option<Json>>
  {
    Lookup(qt, qi, data, LookupRoot(qt, qi, major))
  }

  /* ---------------- reference: pre-order enumeration ---------------- */

  /** One step of the traversal: a dict examined, a null that restarts the
      search, or a value on which Python raises. */
  datatype Visit = Visited(node: Json) | Restart | Crash(error: Error)

  function Walk(t: Json): seq<Visit>
    decreases t, 2, 0
  {
    if t == JNull then [Restart]
    else if !t.JObj? then [Crash(AttributeError("object has no attribute 'get'"))]
    else [Visited(t)] + WalkEdges(t, "input") + WalkEdges(t, "output")
  }

  function WalkEdges(t: Json, key: string): seq<Visit>
    requires t.JObj?
    decreases t, 1, 0
  {
    match Get(t.members, key)
    case None => []
    case Some(v) =>
      MemberSmaller(t, key);
      WalkIn(v)
  }

  function WalkIn(v: Json): seq<Visit>
    decreases v, 1, 1
  {
    match v
    case JArr(xs) => WalkList(xs, 0)
    case JObj(ms) => if |ms| == 0 then [] else [Crash(AttributeError("'str' object has no attribute 'get'"))]
    case JStr(s) => if |s| == 0 then [] else [Crash(AttributeError("'str' object has no attribute 'get'"))]
    case _ => [Crash(TypeError("object is not iterable"))]
  }

  function WalkList(xs: seq<Json>, i: nat): seq<Visit>
    requires i <= |xs|
    decreases JArr(xs), 0, |xs| - i
  {
    if i == |xs| then [] else Walk(xs[i]) + WalkList(xs, i + 1)
  }

  /** What a single visit contributes: a match, a crash, the restart's
      outcome, or `Ok(None)` to keep going. */
  function Outcome(v: Visit, qt: Json, qi: Json, onNull: Result<Option<Json>>): Result<Option<Json>>
  {
    match v
    case Visited(n) => if Matches(n, qt, qi) then Ok(Some(n)) else Ok(None)
    case Restart => onNull
    case Crash(e) => Err(e)
  }

  /** Scan a traversal, stopping at the first visit that does not say "keep going". */
  function FirstHit(vs: seq<Visit>, qt: Json, qi: Json, onNull: Result<Option<Json>>): Result<Option<Json>>
  {
    if |vs| == 0 then Ok(None)
    else if Outcome(vs[0], qt, qi, onNull) != Ok(None) then Outcome(vs[0], qt, qi, onNull)
    else FirstHit(vs[1..], qt, qi, onNull)
  }

  /** The scan yields None exactly when every visit says "keep going", and
      otherwise the outcome of the first visit that does not. */
  lemma {:induction false} FirstHitSpec(vs: seq<Visit>, qt: Json, qi: Json, onNull: Result<Option<Json>>)
    ensures FirstHit(vs, qt, qi, onNull) == Ok(None) <==>
      forall j :: 0 <= j < |vs| ==> Outcome(vs[j], qt, qi, onNull) == Ok(None)
    ensures FirstHit(vs, qt, qi, onNull) != Ok(None) ==>
      exists k :: 0 <= k < |vs| && FirstHit(vs, qt, qi, onNull) == Outcome(vs[k], qt, qi, onNull)
        && forall j :: 0 <= j < k ==> Outcome(vs[j], qt, qi, onNull) == Ok(None)
  {
    if |vs| > 0 && Outcome(vs[0], qt, qi, onNull) == Ok(None) {
      var r := FirstHit(vs[1..], qt, qi, onNull);
      FirstHitSpec(vs[1..], qt, qi, onNull);
      assert forall j :: 0 < j < |vs| ==> vs[j] == vs[1..][j - 1];
      if r != Ok(None) {
        var k :| 0 <= k < |vs[1..]| && r == Outcome(vs[1..][k], qt, qi, onNull)
          && forall j :: 0 <= j < k ==> Outcome(vs[1..][j], qt, qi, onNull) == Ok(None);
        assert vs[k + 1] == vs[1..][k];
      }
    }
  }

  /** Scanning a single visit yields that visit's outcome. */
  lemma FirstHitSingle(v: Visit, qt: Json, qi: Json, onNull: Result<Option<Json>>)
    ensures FirstHit([v], qt, qi, onNull) == Outcome(v, qt, qi, onNull)
  {
    var vs := [v];
    assert vs[1..] == [];
  }

  /** Scanning a concatenation: the second part is reached only when the first finds nothing. */
  lemma {:induction false} FirstHitAppend(a: seq<Visit>, b: seq<Visit>, qt: Json, qi: Json, onNull: Result<Option<Json>>)
    ensures FirstHit(a + b, qt, qi, onNull) ==
      (if FirstHit(a, qt, qi, onNull) == Ok(None) then FirstHit(b, qt, qi, onNull) else FirstHit(a, qt, qi, onNull))
  {
    if |a| > 0 {
      assert (a + b)[0] == a[0];
      assert (a + b)[1..] == a[1..] + b;
      FirstHitAppend(a[1..], b, qt, qi, onNull);
    } else {
      assert a + b == b;
    }
  }

  /** The search returns exactly what scanning its pre-order traversal returns. */
  lemma {:induction false} LookupIsFirstHit(qt: Json, qi: Json, t: Json, onNull: Result<Option<Json>>)
    ensures Lookup(qt, qi, t, onNull) == FirstHit(Walk(t), qt, qi, onNull)
    decreases t, 2, 0
  {
    if !t.JObj? {
      FirstHitSingle(Walk(t)[0], qt, qi, onNull);
    } else if !Matches(t, qt, qi) {
      var ins := WalkEdges(t, "input");
      var outs := WalkEdges(t, "output");
      LookupEdgesIsFirstHit(qt, qi, t, "input", onNull);
      LookupEdgesIsFirstHit(qt, qi, t, "output", onNull);
      assert Walk(t) == [Visited(t)] + (ins + outs);
      assert Walk(t)[1..] == ins + outs;
      FirstHitAppend(ins, outs, qt, qi, onNull);
    }
  }

  lemma {:induction false} LookupEdgesIsFirstHit(qt: Json, qi: Json, t: Json, key: string, onNull: Result<Option<Json>>)
    requires t.JObj?
    ensures LookupEdges(qt, qi, t, key, onNull) == FirstHit(WalkEdges(t, key), qt, qi, onNull)
    decreases t, 1, 0
  {
    match Get(t.members, key)
    case None =>
    case Some(v) =>
      MemberSmaller(t, key);
      LookupInIsFirstHit(qt, qi, v, onNull);
  }

  lemma {:induction false} LookupInIsFirstHit(qt: Json, qi: Json, v: Json, onNull: Result<Option<Json>>)
    ensures LookupIn(qt, qi, v, onNull) == FirstHit(WalkIn(v), qt, qi, onNull)
    decreases v, 1, 1
  {
    if v.JArr? {
      LookupListIsFirstHit(qt, qi, v.items, 0, onNull);
    } else if WalkIn(v) != [] {
      FirstHitSingle(WalkIn(v)[0], qt, qi, onNull);
      assert WalkIn(v) == [WalkIn(v)[0]];
    }
  }

  lemma {:induction false} LookupListIsFirstHit(qt: Json, qi: Json, xs: seq<Json>, i: nat, onNull: Result<Option<Json>>)
    requires i <= |xs|
    ensures LookupList(qt, qi, xs, i, onNull) == FirstHit(WalkList(xs, i), qt, qi, onNull)
    decreases JArr(xs), 0, |xs| - i
  {
    if i < |xs| {
      LookupIsFirstHit(qt, qi, xs[i], onNull);
      LookupListIsFirstHit(qt, qi, xs, i + 1, onNull);
      FirstHitAppend(Walk(xs[i]), WalkList(xs, i + 1), qt, qi, onNull);
    }
  }

  /* ---------------- consequences ---------------- */

  /** A tree the search walks without raising and without restarting. */
  predicate Walkable(t: Json)
  {
    forall j :: 0 <= j < |Walk(t)| ==> Walk(t)[j].Visited?
  }

  /** `lookup` from the root: a node it returns matches both `type` and `index`
      and is the first matching node of the pre-order traversal; it returns
      nothing exactly when no node of the traversal matches and none makes
      Python raise; it raises only at a value of the traversal that is not a dict. */
  lemma LookupRootSpec(qt: Json, qi: Json, major: Json)
    ensures LookupRoot(qt, qi, major).Ok? && LookupRoot(qt, qi, major).value.Some? ==>
      var n := LookupRoot(qt, qi, major).value.value;
      Matches(n, qt, qi) &&
      exists k :: 0 <= k < |Walk(major)| && Walk(major)[k] == Visited(n)
        && forall j :: 0 <= j < k ==> Walk(major)[j].Visited? && !Matches(Walk(major)[j].node, qt, qi)
    ensures LookupRoot(qt, qi, major) == Ok(None) <==>
      forall j :: 0 <= j < |Walk(major)| ==> Walk(major)[j].Visited? && !Matches(Walk(major)[j].node, qt, qi)
    ensures LookupRoot(qt, qi, major).Err? ==> exists k :: 0 <= k < |Walk(major)| && !Walk(major)[k].Visited?
  {
    var w := Walk(major);
    var onNull: Result<Option<Json>> := Err(RecursionError);
    LookupIsFirstHit(qt, qi, major, onNull);
    FirstHitSpec(w, qt, qi, onNull);
    forall j | 0 <= j < |w| ensures Outcome(w[j], qt, qi, onNull) == Ok(None) <==> w[j].Visited? && !Matches(w[j].node, qt, qi) {
    }
    var r := LookupRoot(qt, qi, major);
    if r != Ok(None) {
      var k :| 0 <= k < |w| && r == Outcome(w[k], qt, qi, onNull)
        && forall j :: 0 <= j < k ==> Outcome(w[j], qt, qi, onNull) == Ok(None);
    }
  }

  /** Whatever the restart returns, a node the search returns from a subtree
      matches the query, provided a node the restart returns does. */
  lemma LookupFindsMatch(qt: Json, qi: Json, t: Json, onNull: Result<Option<Json>>)
    requires onNull.Ok? && onNull.value.Some? ==> Matches(onNull.value.value, qt, qi)
    ensures Lookup(qt, qi, t, onNull).Ok? && Lookup(qt, qi, t, onNull).value.Some? ==>
      Matches(Lookup(qt, qi, t, onNull).value.value, qt, qi)
  {
    LookupIsFirstHit(qt, qi, t, onNull);
    var r := Lookup(qt, qi, t, onNull);
    if r.Ok? && r.value.Some? {
      var w := Walk(t);
      FirstHitSpec(w, qt, qi, onNull);
      var k :| 0 <= k < |w| && r == Outcome(w[k], qt, qi, onNull);
    }
  }

  /** On a walkable tree the search never raises, it finds a node exactly when
      some visited node matches, and a node that is the only match is the one found. */
  lemma LookupWalkable(qt: Json, qi: Json, t: Json, onNull: Result<Option<Json>>, n: Json)
    requires Walkable(t)
    ensures Lookup(qt, qi, t, onNull).Ok?
    ensures Lookup(qt, qi, t, onNull).value.Some? <==>
      exists j :: 0 <= j < |Walk(t)| && Matches(Walk(t)[j].node, qt, qi)
    ensures Visited(n) in Walk(t) && Matches(n, qt, qi)
      && (forall j :: 0 <= j < |Walk(t)| && Matches(Walk(t)[j].node, qt, qi) ==> Walk(t)[j].node == n)
      ==> Lookup(qt, qi, t, onNull) == Ok(Some(n))
  {
    LookupIsFirstHit(qt, qi, t, onNull);
    var w := Walk(t);
    FirstHitSpec(w, qt, qi, onNull);
    var r := Lookup(qt, qi, t, onNull);
    if r != Ok(None) {
      var k :| 0 <= k < |w| && r == Outcome(w[k], qt, qi, onNull);
      assert w[k].Visited?;
    }
    if exists j :: 0 <= j < |w| && Matches(w[j].node, qt, qi) {
      var j :| 0 <= j < |w| && Matches(w[j].node, qt, qi);
      assert Outcome(w[j], qt, qi, onNull) != Ok(None);
    }
  }

  /** A node that itself matches is returned at once, whatever its subtrees hold. */
  lemma LookupSelf(qt: Json, qi: Json, t: Json, onNull: Result<Option<Json>>)
    requires Matches(t, qt, qi)
    ensures Lookup(qt, qi, t, onNull) == Ok(Some(t))
  {
  }
}
