/**
  `Occam.Object` and `Occam.load`: which node of the descriptor document this
  process stands for, its attributes with their defaults, the paths derived
  from them, and its input/output edges resolved to sibling nodes.
 */
module Descriptor {
  import opened PyJson
  import opened Paths
  import Coerce
  import Locate

  /** An `Occam.Object`: the whole parsed document (`_major_object`), the node
      it stands for (`_object`, `JNull` when the lookup found nothing) and its
      index (`_index`, `JNull` for the native object). */
  datatype Node = Node(major: Json, obj: Json, index: Json)

  predicate IsNative(n: Node)
  {
    n.index == JNull
  }

  /** The node's descriptor is a dict, so its attributes can be read. */
  predicate Resolved(n: Node)
  {
    n.obj.JObj?
  }

  const TypeVariable: string := "OCCAM_OBJECT_TYPE"
  const IndexVariable: string := "OCCAM_OBJECT_INDEX"

  /* ---------------- selecting the active node ---------------- */

  /** The object type: the environment's, else the document's, else an error. */
  function SelectType(env: map<string, string>, major: Json): (r: Result<Json>)
    requires major.JObj?
    ensures TypeVariable in env ==> r == Ok(JStr(env[TypeVariable]))
    ensures TypeVariable !in env && "type" in Keys(major.members) ==> r.Ok? && Some(r.value) == Get(major.members, "type")
    ensures r.Err? <==> TypeVariable !in env && "type" !in Keys(major.members)
    ensures r.Err? ==> r.error == ObjectTypeUnknown
  {
    if TypeVariable in env then Ok(JStr(env[TypeVariable]))
    else match Get(major.members, "type")
      case Some(t) => Ok(t)
      case None => Err(ObjectTypeUnknown)
  }

  /** The index: the environment's, read with `int()`, else None. */
  function SelectIndex(env: map<string, string>): (r: Result<Json>)
    ensures r == Ok(JNull) <==> IndexVariable !in env
    ensures IndexVariable in env ==>
      (r.Ok? <==> Coerce.ParseInt(env[IndexVariable]).Ok?) &&
      (r.Ok? ==> r.value == JInt(Coerce.ParseInt(env[IndexVariable]).value))
  {
    if IndexVariable in env then
      var i :- Coerce.ParseInt(env[IndexVariable]);
      Ok(JInt(i))
    else Ok(JNull)
  }

  /** `major['input'][0]`: where referenced nodes are searched for. */
  function Primary(major: Json): (r: Result<Json>)
    ensures r.Ok? ==> major.JObj? && "input" in Keys(major.members) && First(Get(major.members, "input").value) == r
    ensures major.JObj? && "input" in Keys(major.members) && Get(major.members, "input").value.JArr? ==>
      var xs := Get(major.members, "input").value.items;
      (|xs| > 0 ==> r == Ok(xs[0])) && (|xs| == 0 ==> r == Err(IndexError))
    ensures major.JObj? && "input" !in Keys(major.members) ==> r == Err(KeyError("input"))
    ensures !major.JObj? ==> r.Err?
  {
    var inputs :- Index(major, "input");
    First(inputs)
  }

  /** `node` is what `load_internal(qt, qi)` builds on `major`: its descriptor
      is what `lookup(qt, qi, major['input'][0])` returns, `JNull` for None. */
  predicate LoadedBy(node: Node, major: Json, qt: Json, qi: Json)
  {
    node.major == major && node.index == qi && Primary(major).Ok? &&
    Locate.ObjectLookup(qt, qi, major, Primary(major).value) == Ok(if node.obj == JNull then None else Some(node.obj))
  }

  /** `Object.load_internal`: the node with the given type and index, searched
      for from the document's primary input. */
  function LoadInternal(major: Json, qt: Json, qi: Json): (r: Result<Node>)
    ensures r.Ok? ==> LoadedBy(r.value, major, qt, qi)
    ensures r.Ok? ==> r.value.obj == JNull || Locate.Matches(r.value.obj, qt, qi)
    ensures r.Err? <==> Primary(major).Err? || Locate.ObjectLookup(qt, qi, major, Primary(major).value).Err?
  {
    var start :- Primary(major);
    var found :- Locate.ObjectLookup(qt, qi, major, start);
    Locate.LookupRootSpec(qt, qi, major);
    Locate.LookupFindsMatch(qt, qi, start, Locate.LookupRoot(qt, qi, major));
    Ok(Node(major, if found.Some? then found.value else JNull, qi))
  }

  /** When the search from the primary input neither raises nor restarts,
      loading succeeds, and it finds a descriptor exactly when some node of the
      pre-order traversal matches; the one it finds is the first such node. */
  lemma {:induction false} LoadInternalFirstMatch(major: Json, qt: Json, qi: Json)
    requires Primary(major).Ok? && Locate.Walkable(Primary(major).value)
    ensures LoadInternal(major, qt, qi).Ok?
    ensures var w := Locate.Walk(Primary(major).value);
      LoadInternal(major, qt, qi).value.obj != JNull <==>
        exists j :: 0 <= j < |w| && Locate.Matches(w[j].node, qt, qi)
    ensures var w := Locate.Walk(Primary(major).value);
      var found := LoadInternal(major, qt, qi).value.obj;
      found != JNull ==>
        exists k :: 0 <= k < |w| && w[k] == Locate.Visited(found) &&
          forall j :: 0 <= j < k ==> !Locate.Matches(w[j].node, qt, qi)
  {
    var start := Primary(major).value;
    var onNull := Locate.LookupRoot(qt, qi, major);
    var w := Locate.Walk(start);
    Locate.LookupWalkable(qt, qi, start, onNull, JNull);
    Locate.LookupIsFirstHit(qt, qi, start, onNull);
    Locate.FirstHitSpec(w, qt, qi, onNull);
    var r := Locate.ObjectLookup(qt, qi, major, start);
    if r.value.Some? {
      var k :| 0 <= k < |w| && r == Locate.Outcome(w[k], qt, qi, onNull)
        && forall j :: 0 <= j < k ==> Locate.Outcome(w[j], qt, qi, onNull) == Ok(None);
      assert w[k].Visited?;
      forall j | 0 <= j < k ensures !Locate.Matches(w[j].node, qt, qi) {
        assert w[j].Visited?;
      }
    }
  }

  /** `Occam.load()` followed by `Object.load`: the environment picks the node
      this process stands for. */
  function Load(env: map<string, string>, major: Json): (r: Result<Node>)
    requires major.JObj?
    ensures r.Ok? ==> r.value.major == major
    ensures TypeVariable !in env && "type" !in Keys(major.members) ==> r == Err(ObjectTypeUnknown)
    ensures r.Ok? ==> (IsNative(r.value) <==> IndexVariable !in env)
    ensures r.Ok? && IndexVariable !in env ==> r.value.obj == major
    ensures r.Ok? && IndexVariable in env ==>
      Coerce.ParseInt(env[IndexVariable]).Ok? && SelectType(env, major).Ok? &&
      r.value.index == JInt(Coerce.ParseInt(env[IndexVariable]).value) &&
      (r.value.obj == JNull || Locate.Matches(r.value.obj, SelectType(env, major).value, r.value.index)) &&
      LoadedBy(r.value, major, SelectType(env, major).value, r.value.index)
    ensures SelectType(env, major).Ok? && IndexVariable !in env ==> r == Ok(Node(major, major, JNull))
    ensures r.Err? <==> (SelectType(env, major).Err? || SelectIndex(env).Err? ||
      (IndexVariable in env && LoadInternal(major, SelectType(env, major).value, SelectIndex(env).value).Err?))
  {
    var qt :- SelectType(env, major);
    var qi :- SelectIndex(env);
    if qi == JNull then Ok(Node(major, major, JNull))
    else LoadInternal(major, qt, qi)
  }

  /* ---------------- attributes ---------------- */

  /** `key in d` then `d[key]`, else the default: an attribute of the node's
      descriptor. A dict answers; None, a number or a bool makes `in` raise
      TypeError; a list or string answers the default unless `key` is in it, in
      which case indexing it with a string raises TypeError. */
  function Attribute(n: Node, key: string, default: Json): (r: Result<Json>)
    ensures n.obj.JObj? ==> r.Ok?
    ensures n.obj.JObj? && key !in Keys(n.obj.members) ==> r == Ok(default)
    ensures n.obj.JObj? && key in Keys(n.obj.members) ==> Get(n.obj.members, key) == Some(r.value)
    ensures !(n.obj.JObj? || n.obj.JArr? || n.obj.JStr?) ==> r.Err? && r.error.TypeError?
    ensures n.obj.JArr? ==> (r.Ok? <==> JStr(key) !in n.obj.items)
    ensures r.Ok? && !n.obj.JObj? ==> r.value == default
    ensures r.Err? ==> r.error.TypeError?
  {
    var present :- Contains(n.obj, key);
    if present then Index(n.obj, key) else Ok(default)
  }

  function Name(n: Node): Result<Json>
  {
    Attribute(n, "name", JStr("unnamed"))
  }

  function Type(n: Node): Result<Json>
  {
    Attribute(n, "type", JStr("object"))
  }

  function Id(n: Node): Result<Json>
  {
    Attribute(n, "id", JStr(""))
  }

  function Revision(n: Node): Result<Json>
  {
    Attribute(n, "revision", JStr(""))
  }

  /** A descriptor that mentions none of the four attributes reads as an
      unnamed object with empty id and revision; a node whose lookup found
      nothing raises on every one of them. */
  lemma AttributeDefaults(n: Node)
    ensures Resolved(n) && "name" !in Keys(n.obj.members) ==> Name(n) == Ok(JStr("unnamed"))
    ensures Resolved(n) && "type" !in Keys(n.obj.members) ==> Type(n) == Ok(JStr("object"))
    ensures Resolved(n) && "id" !in Keys(n.obj.members) ==> Id(n) == Ok(JStr(""))
    ensures Resolved(n) && "revision" !in Keys(n.obj.members) ==> Revision(n) == Ok(JStr(""))
    ensures n.obj == JNull ==> Name(n).Err? && Type(n).Err? && Id(n).Err? && Revision(n).Err?
  {
  }

  /** `type().replace('/', '-').lower()`: same length, no '/', ASCII-lowercased;
      a type that is not a string has no `replace` (AttributeError). */
  function SlugType(n: Node): (r: Result<string>)
    ensures r.Ok? <==> Type(n).Ok? && Type(n).value.JStr?
    ensures Type(n).Err? ==> r == Err(Type(n).error)
    ensures Type(n).Ok? && !Type(n).value.JStr? ==> r.Err? && r.error.AttributeError?
    ensures r.Ok? ==> |r.value| == |Type(n).value.s|
    ensures r.Ok? ==> forall i :: 0 <= i < |r.value| ==>
      r.value[i] != '/' && r.value[i] == (if Type(n).value.s[i] == '/' then '-' else LowerChar(Type(n).value.s[i]))
  {
    var t :- Type(n);
    if t.JStr? then Ok(Slug(t.s)) else Err(AttributeError("object has no attribute 'replace'"))
  }

  /** `str(index)`: "None" for the native object. */
  function Tag(n: Node): (r: string)
    requires Printable(n.index)
    ensures IsNative(n) ==> r == "None"
    ensures n.index.JInt? ==> r == IntToString(n.index.i)
  {
    Str(n.index)
  }

  /** The tag of a node whose index is an int is a plain path component:
      non-empty, with no '/' anywhere. */
  lemma TagIsComponent(n: Node)
    requires n.index.JInt?
    ensures Tag(n) != "" && !IsAbsolute(Tag(n)) && !EndsInSlash(Tag(n))
  {
    var t := Tag(n);
    var i := n.index.i;
    if i < 0 {
      assert t == "-" + NatToString(-i);
      assert t[|t| - 1] == NatToString(-i)[|NatToString(-i)| - 1];
    }
  }

  /* ---------------- paths ---------------- */

  predicate VolumeDefined(n: Node)
  {
    Resolved(n) && Printable(Id(n).value) && Printable(Revision(n).value) && (IsNative(n) ==> Type(n).value.JStr?)
  }

  /** Shared storage for a node's data: run-local for the native object,
      `/occam/<id>-<revision>` for a referenced one. */
  function Volume(n: Node): (r: string)
    requires VolumeDefined(n)
    ensures IsNative(n) ==> r == "./occam-run/" + SlugType(n).value + "-" + Str(Id(n).value)
    ensures !IsNative(n) && !IsAbsolute(Str(Id(n).value)) ==> r == "/occam/" + Str(Id(n).value) + "-" + Str(Revision(n).value)
    ensures !IsNative(n) && IsAbsolute(Str(Id(n).value)) ==> r == Str(Id(n).value) + "-" + Str(Revision(n).value)
  {
    var id := Str(Id(n).value);
    if IsNative(n) then
      var slug := SlugType(n).value;
      LocalVolumeShape(slug, id);
      Join(".", ["occam-run", slug + "-" + id])
    else
      var rev := Str(Revision(n).value);
      SharedVolumeShape(id, rev);
      Join("/", ["occam", id + "-" + rev])
  }

  lemma LocalVolumeShape(slug: string, id: string)
    requires forall i :: 0 <= i < |slug| ==> slug[i] != '/'
    ensures Join(".", ["occam-run", slug + "-" + id]) == "./occam-run/" + slug + "-" + id
  {
    var leaf := slug + "-" + id;
    assert !IsAbsolute(leaf) by {
      if |slug| > 0 { assert leaf[0] == slug[0]; } else { assert leaf[0] == '-'; }
    }
    JoinRelative(".", "occam-run", leaf);
  }

  lemma SharedVolumeShape(id: string, rev: string)
    ensures !IsAbsolute(id) ==> Join("/", ["occam", id + "-" + rev]) == "/occam/" + id + "-" + rev
    ensures IsAbsolute(id) ==> Join("/", ["occam", id + "-" + rev]) == id + "-" + rev
  {
    var leaf := id + "-" + rev;
    assert ["occam", leaf][1..] == [leaf];
    var last: seq<string> := [leaf];
    assert last[1..] == [];
    assert Join2("/", "occam") == "/occam";
    assert Join("/", ["occam", leaf]) == Join(Join2("/", "occam"), [leaf]) == Join(Join2("/occam", leaf), last[1..]);
    assert IsAbsolute(leaf) <==> IsAbsolute(id) by {
      if |id| > 0 { assert leaf[0] == id[0]; } else { assert leaf[0] == '-'; }
    }
  }

  lemma NativeRunDirectory()
    ensures Join(".", ["occam-run", "None"]) == "./occam-run/None"
  {
    JoinRelative(".", "occam-run", "None");
    assert "." + "/" + "occam-run" + "/" + "None" == "./occam-run/None";
  }

  /** A directory of the node under `root`: the native object's run
      directory, else `./<root>/<tag>` (a `posixpath.join` that an absolute tag
      overrides). */
  function NodeDirectory(n: Node, root: string): (r: string)
    requires Printable(n.index)
    requires root != "" && !IsAbsolute(root) && !EndsInSlash(root)
    ensures IsNative(n) ==> r == "./occam-run/None"
    ensures !IsNative(n) && !IsAbsolute(Tag(n)) ==> r == "./" + root + "/" + Tag(n)
    ensures !IsNative(n) && IsAbsolute(Tag(n)) ==> r == Tag(n)
  {
    if IsNative(n) then
      NativeRunDirectory();
      Join(".", ["occam-run", Tag(n)])
    else
      var r := Join(".", [root, Tag(n)]);
      assert IsAbsolute(Tag(n)) ==> r == Tag(n) by {
        if IsAbsolute(Tag(n)) { JoinAbsolute(".", root, Tag(n)); }
      }
      assert !IsAbsolute(Tag(n)) ==> r == "./" + root + "/" + Tag(n) by {
        if !IsAbsolute(Tag(n)) { JoinRelative(".", root, Tag(n)); }
      }
      r
  }

  /** The working directory of a node. */
  function Path(n: Node): string
    requires Printable(n.index)
  {
    NodeDirectory(n, "objects")
  }

  /** Where a node's pre-run set-up lives. */
  function InitializationPath(n: Node): string
    requires Printable(n.index)
  {
    NodeDirectory(n, "init")
  }

  /** The native object works and initialises in the same place; a referenced
      object with a relative tag keeps the two apart. */
  lemma PathsOfNativeCoincide(n: Node)
    requires Printable(n.index)
    ensures IsNative(n) ==> Path(n) == InitializationPath(n) == "./occam-run/None"
    ensures !IsNative(n) && !IsAbsolute(Tag(n)) ==> Path(n) != InitializationPath(n)
  {
    if !IsNative(n) && !IsAbsolute(Tag(n)) {
      assert Path(n)[2] != InitializationPath(n)[2];
    }
  }

  /** Referenced nodes with the same id and revision share one volume, whatever else differs. */
  lemma VolumeSharedByIdentity(a: Node, b: Node)
    requires VolumeDefined(a) && VolumeDefined(b) && !IsNative(a) && !IsNative(b)
    requires Id(a) == Id(b) && Revision(a) == Revision(b)
    ensures Volume(a) == Volume(b)
  {
  }

  /** `files()`: each listed file joined onto the volume, in order. */
  function Files(n: Node): (r: Result<seq<string>>)
    requires VolumeDefined(n)
    ensures r.Ok? <==> (Iter(GetOr(n.obj, "files", JArr([]))).Ok? &&
      forall i :: 0 <= i < |Iter(GetOr(n.obj, "files", JArr([]))).value| ==> Iter(GetOr(n.obj, "files", JArr([]))).value[i].JStr?)
    ensures r.Ok? ==>
      var listed := Iter(GetOr(n.obj, "files", JArr([]))).value;
      |r.value| == |listed| &&
      forall i :: 0 <= i < |listed| ==>
        (IsAbsolute(listed[i].s) ==> r.value[i] == listed[i].s) &&
        r.value[i] == Join2(Volume(n), listed[i].s) &&
        (!IsAbsolute(listed[i].s) ==> IsPrefix(Volume(n), r.value[i]) && IsSuffix(listed[i].s, r.value[i]))
  {
    var listed :- Iter(GetOr(n.obj, "files", JArr([])));
    JoinAll(Volume(n), listed, 0)
  }

  function JoinAll(base: string, listed: seq<Json>, i: nat): (r: Result<seq<string>>)
    requires i <= |listed|
    ensures r.Ok? <==> forall j :: i <= j < |listed| ==> listed[j].JStr?
    ensures r.Ok? ==> (|r.value| == |listed| - i &&
      forall j :: i <= j < |listed| ==> r.value[j - i] == Join2(base, listed[j].s))
    decreases |listed| - i
  {
    if i == |listed| then Ok([])
    else if !listed[i].JStr? then Err(TypeError("expected str"))
    else
      var rest :- JoinAll(base, listed, i + 1);
      Ok([Join2(base, listed[i].s)] + rest)
  }

  /* ---------------- edges ---------------- */

  function TypeOf(info: Json): Json
  {
    if info.JObj? then GetOr(info, "type", JNull) else JNull
  }

  function IndexOf(info: Json): Json
  {
    if info.JObj? then GetOr(info, "index", JNull) else JNull
  }

  /** The edges `inputs(type)`/`outputs(type)` keep: all of them for None,
      otherwise those whose `type` equals the requested one, in order. */
  function Selected(infos: seq<Json>, qt: Json): seq<Json>
  {
    if |infos| == 0 then []
    else (if qt == JNull || PyEq(TypeOf(infos[0]), qt) then [infos[0]] else []) + Selected(infos[1..], qt)
  }

  /** Filtering keeps exactly the edges of the requested type: every kept edge
      is listed and has that type, and every listed edge of that type is kept;
      None keeps everything. */
  lemma {:induction false} SelectedSpec(infos: seq<Json>, qt: Json)
    ensures |Selected(infos, qt)| <= |infos|
    ensures forall e :: e in Selected(infos, qt) ==> e in infos
    ensures qt != JNull ==> forall e :: e in Selected(infos, qt) ==> PyEq(TypeOf(e), qt)
    ensures forall e :: e in infos && (qt == JNull || PyEq(TypeOf(e), qt)) ==> e in Selected(infos, qt)
    ensures qt == JNull ==> Selected(infos, qt) == infos
  {
    if |infos| > 0 {
      SelectedSpec(infos[1..], qt);
      assert infos == [infos[0]] + infos[1..];
    }
  }

  /** Filtering keeps the listed order: the edges kept from a concatenation are
      those kept from its first part followed by those kept from its second. */
  lemma {:induction false} SelectedAppend(a: seq<Json>, b: seq<Json>, qt: Json)
    ensures Selected(a + b, qt) == Selected(a, qt) + Selected(b, qt)
  {
    if |a| > 0 {
      SelectedAppend(a[1..], b, qt);
      assert (a + b)[1..] == a[1..] + b;
    } else {
      assert a + b == b;
    }
  }

  /** One listed edge passes through the loop of `inputs`/`outputs` without
      raising: it is a dict, it has a `type` whenever one is asked for, and when
      it is kept it has `type` and `index` and `load_internal` succeeds on them. */
  predicate EdgeResolves(major: Json, info: Json, qt: Json)
  {
    info.JObj? && (qt != JNull ==> "type" in Keys(info.members)) &&
    ((qt == JNull || PyEq(TypeOf(info), qt)) ==>
      "type" in Keys(info.members) && "index" in Keys(info.members) &&
      LoadInternal(major, TypeOf(info), IndexOf(info)).Ok?)
  }

  /** Edge nodes resolved from `infos[i..]`, as the loop in `inputs`/`outputs` builds them. */
  function ResolveEdges(major: Json, infos: seq<Json>, i: nat, qt: Json): (r: Result<seq<Node>>)
    requires i <= |infos|
    ensures r.Ok? ==>
      var kept := Selected(infos[i..], qt);
      |r.value| == |kept| &&
      forall j :: 0 <= j < |kept| ==>
        LoadedBy(r.value[j], major, TypeOf(kept[j]), IndexOf(kept[j])) &&
        (r.value[j].obj == JNull || Locate.Matches(r.value[j].obj, TypeOf(kept[j]), IndexOf(kept[j])))
    ensures r.Ok? <==> forall j :: i <= j < |infos| ==> EdgeResolves(major, infos[j], qt)
    decreases |infos| - i
  {
    if i == |infos| then Ok([])
    else
      var info := infos[i];
      assert infos[i..][1..] == infos[i + 1..];
      var keep :- if qt == JNull then Ok(true) else (var t :- Index(info, "type"); Ok(PyEq(t, qt)));
      if keep then
        var t :- Index(info, "type");
        var ix :- Index(info, "index");
        var node :- LoadInternal(major, t, ix);
        var rest :- ResolveEdges(major, infos, i + 1, qt);
        assert Selected(infos[i..], qt) == [info] + Selected(infos[i + 1..], qt);
        Ok([node] + rest)
      else
        assert Selected(infos[i..], qt) == Selected(infos[i + 1..], qt);
        ResolveEdges(major, infos, i + 1, qt)
  }

  /** `inputs(type)` (key "input") and `outputs(type)` (key "output"). */
  function Edges(n: Node, key: string, qt: Json): (r: Result<seq<Node>>)
    ensures !Resolved(n) ==> r.Err? && r.error.AttributeError?
    ensures r.Ok? ==> Resolved(n) && Iter(GetOr(n.obj, key, JArr([]))).Ok?
    ensures Resolved(n) && Iter(GetOr(n.obj, key, JArr([]))).Ok? ==>
      var infos := Iter(GetOr(n.obj, key, JArr([]))).value;
      (r.Ok? <==> forall j :: 0 <= j < |infos| ==> EdgeResolves(n.major, infos[j], qt))
    ensures r.Ok? ==>
      var kept := Selected(Iter(GetOr(n.obj, key, JArr([]))).value, qt);
      |r.value| == |kept| &&
      forall j :: 0 <= j < |kept| ==>
        LoadedBy(r.value[j], n.major, TypeOf(kept[j]), IndexOf(kept[j])) &&
        (r.value[j].obj == JNull || Locate.Matches(r.value[j].obj, TypeOf(kept[j]), IndexOf(kept[j])))
  {
    if !Resolved(n) then Err(AttributeError("object has no attribute 'get'")) else
    var infos :- Iter(GetOr(n.obj, key, JArr([])));
    assert infos[0..] == infos;
    ResolveEdges(n.major, infos, 0, qt)
  }

  function Inputs(n: Node, qt: Json): Result<seq<Node>>
  {
    Edges(n, "input", qt)
  }

  function Outputs(n: Node, qt: Json): Result<seq<Node>>
  {
    Edges(n, "output", qt)
  }
}
