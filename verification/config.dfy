/**
  `Object.configuration` with its nested `set_default`, and
  `Object.configuration_file`.

  For the native object a configuration is the defaults of a schema: every
  Item (a node whose "type" is present and not a dict) with a "default" puts
  that default, coerced to its declared type, into the result; an Item without
  one is reported as a warning and puts nothing; a Group (any other node) puts a
  nested mapping, reusing one already there, and is filled recursively. The
  warnings Python prints are returned, in order, as the list of keys.

  For a referenced object a configuration is the value stored under the name,
  read from `./config/<tag>/<value>` when that value is a string.
 */
module Configuration {
  import opened PyJson
  import opened Paths
  import opened Coerce
  import opened Descriptor

  /** A result mapping and the keys warned about while filling it. */
  datatype Filled = Filled(values: Json, warnings: seq<string>)

  /* ---------------- set_default as written ---------------- */

  /** `set_default(schema, current)`. */
  function SetDefault(schema: Json, current: Json): Result<Filled>
    decreases schema, 1, 0
  {
    if !schema.JObj? then Err(AttributeError("object has no attribute 'items'"))
    else SetDefaultFrom(schema.members, 0, Filled(current, []))
  }

  /** The loop over `schema.items()` from member `i` on. */
  function SetDefaultFrom(ms: Members, i: nat, acc: Filled): Result<Filled>
    requires i <= |ms|
    decreases JObj(ms), 0, |ms| - i
  {
    if i == |ms| then Ok(acc)
    else
      assert ms[i] in ms;
      var next :- SetDefaultEntry(ms[i].0, ms[i].1, acc);
      SetDefaultFrom(ms, i + 1, next)
  }

  /** One iteration of the loop: key `k` with schema node `v`. */
  function SetDefaultEntry(k: string, v: Json, acc: Filled): Result<Filled>
    decreases v, 2, 0
  {
    var hasType :- Contains(v, "type");
    var declared :- if hasType then (var t :- Index(v, "type"); Ok(Some(t))) else Ok(None);
    if declared.Some? && !declared.value.JObj? then
      var hasDefault :- Contains(v, "default");
      if hasDefault then
        var d :- Index(v, "default");
        var value :- CoerceDefault(declared.value, d);
        var cur :- Assign(acc.values, k, value);
        Ok(Filled(cur, acc.warnings))
      else
        Ok(Filled(acc.values, acc.warnings + [k]))
    else
      var present :- Contains(acc.values, k);
      var cur :- if present then Ok(acc.values) else Assign(acc.values, k, JObj([]));
      var sub :- Index(cur, k);
      var inner :- SetDefault(v, sub);
      var filled :- Assign(cur, k, inner.values);
      Ok(Filled(filled, acc.warnings + inner.warnings))
  }

  /* ---------------- what set_default promises ---------------- */

  /** A schema Item: "type" present and not a dict. */
  predicate IsItem(v: Json)
  {
    v.JObj? && "type" in Keys(v.members) && !Get(v.members, "type").value.JObj?
  }

  predicate HasDefault(v: Json)
  {
    v.JObj? && "default" in Keys(v.members)
  }

  /** The keys of the Items without a default, in the order the schema lists
      them, Groups contributing theirs in place. */
  function MissingDefaults(schema: Json): seq<string>
    decreases schema, 1, 0
  {
    if !schema.JObj? then [] else MissingFrom(schema.members, 0)
  }

  function MissingFrom(ms: Members, i: nat): seq<string>
    requires i <= |ms|
    decreases JObj(ms), 0, |ms| - i
  {
    if i == |ms| then []
    else
      assert ms[i] in ms;
      MissingEntry(ms[i].0, ms[i].1) + MissingFrom(ms, i + 1)
  }

  function MissingEntry(k: string, v: Json): seq<string>
    decreases v, 2, 0
  {
    if IsItem(v) then (if HasDefault(v) then [] else [k]) else MissingDefaults(v)
  }

  /** The warnings are exactly the default-less Items of the schema, in
      schema order, whatever the mapping being filled already holds. */
  lemma {:induction false} SetDefaultWarnings(schema: Json, current: Json)
    requires SetDefault(schema, current).Ok?
    ensures SetDefault(schema, current).value.warnings == MissingDefaults(schema)
    decreases schema, 1, 0
  {
    SetDefaultFromWarnings(schema.members, 0, Filled(current, []));
  }

  lemma {:induction false} SetDefaultFromWarnings(ms: Members, i: nat, acc: Filled)
    requires i <= |ms|
    requires SetDefaultFrom(ms, i, acc).Ok?
    ensures SetDefaultFrom(ms, i, acc).value.warnings == acc.warnings + MissingFrom(ms, i)
    decreases JObj(ms), 0, |ms| - i
  {
    if i < |ms| {
      var (k, v) := ms[i];
      var next := SetDefaultEntry(k, v, acc).value;
      assert SetDefaultFrom(ms, i, acc) == SetDefaultFrom(ms, i + 1, next);
      assert MissingFrom(ms, i) == MissingEntry(k, v) + MissingFrom(ms, i + 1);
      SetDefaultEntryWarnings(k, v, acc);
      SetDefaultFromWarnings(ms, i + 1, next);
      assert acc.warnings + MissingEntry(k, v) + MissingFrom(ms, i + 1)
          == acc.warnings + (MissingEntry(k, v) + MissingFrom(ms, i + 1));
    }
  }

  lemma {:induction false} SetDefaultEntryWarnings(k: string, v: Json, acc: Filled)
    requires SetDefaultEntry(k, v, acc).Ok?
    ensures SetDefaultEntry(k, v, acc).value.warnings == acc.warnings + MissingEntry(k, v)
    decreases v, 2, 0
  {
    var hasType := Contains(v, "type").value;
    if !(hasType && !Index(v, "type").value.JObj?) {
      var present := Contains(acc.values, k).value;
      var cur := if present then acc.values else Assign(acc.values, k, JObj([])).value;
      var sub := Index(cur, k).value;
      SetDefaultWarnings(v, sub);
    }
  }

  /** What filling leaves under the key of schema node `v`, given what was
      there before: an Item's default coerced to its declared type, nothing new
      for an Item without default, and for a Group the nested mapping that
      filling the previous value (or a fresh `{}`) produces. */
  ghost predicate Applied(v: Json, prior: Option<Json>, now: Option<Json>)
  {
    if IsItem(v) then
      if HasDefault(v) then
        now.Some? &&
        CoerceDefault(Get(v.members, "type").value, Get(v.members, "default").value) == Ok(now.value)
      else now == prior
    else
      now.Some? && v.JObj? &&
      exists f :: SetDefault(v, if prior.Some? then prior.value else JObj([])) == Ok(f) && f.values == now.value
  }

  lemma SetDefaultEntryEffect(k: string, v: Json, acc: Filled)
    requires acc.values.JObj?
    requires SetDefaultEntry(k, v, acc).Ok?
    ensures SetDefaultEntry(k, v, acc).value.values.JObj?
    ensures forall k' :: k' != k ==>
      Get(SetDefaultEntry(k, v, acc).value.values.members, k') == Get(acc.values.members, k')
    ensures Applied(v, Get(acc.values.members, k), Get(SetDefaultEntry(k, v, acc).value.values.members, k))
  {
    var hasType := Contains(v, "type").value;
    if !(hasType && !Index(v, "type").value.JObj?) {
      var present := Contains(acc.values, k).value;
      var cur := if present then acc.values else Assign(acc.values, k, JObj([])).value;
      var sub := Index(cur, k).value;
      var inner := SetDefault(v, sub).value;
      assert sub == (if Get(acc.values.members, k).Some? then Get(acc.values.members, k).value else JObj([]));
      assert SetDefault(v, sub) == Ok(inner);
    }
  }

  /** Filling from member `i` on: keys the remaining members do not name keep
      their value, and each remaining member's key ends up as `Applied` says. */
  lemma {:induction false} SetDefaultFromEffect(ms: Members, i: nat, acc: Filled)
    requires i <= |ms| && DistinctKeys(ms)
    requires acc.values.JObj?
    requires SetDefaultFrom(ms, i, acc).Ok?
    ensures SetDefaultFrom(ms, i, acc).value.values.JObj?
    ensures forall k :: (forall j :: i <= j < |ms| ==> ms[j].0 != k) ==>
      Get(SetDefaultFrom(ms, i, acc).value.values.members, k) == Get(acc.values.members, k)
    ensures forall j :: i <= j < |ms| ==>
      Applied(ms[j].1, Get(acc.values.members, ms[j].0), Get(SetDefaultFrom(ms, i, acc).value.values.members, ms[j].0))
    decreases |ms| - i
  {
    if i < |ms| {
      var next := SetDefaultEntry(ms[i].0, ms[i].1, acc).value;
      SetDefaultEntryEffect(ms[i].0, ms[i].1, acc);
      SetDefaultFromEffect(ms, i + 1, next);
      var f := SetDefaultFrom(ms, i, acc).value;
      assert f == SetDefaultFrom(ms, i + 1, next).value;
      forall j | i < j < |ms|
        ensures Get(next.values.members, ms[j].0) == Get(acc.values.members, ms[j].0)
      {
        assert ms[j].0 != ms[i].0;
      }
    }
  }

  /** `set_default` on a mapping, for a schema with distinct keys: keys the
      schema does not name are left alone, and each key it names holds what
      `Applied` prescribes; in particular the result keys are the previous keys
      plus the schema's Items with a default and its Groups. */
  lemma SetDefaultEffect(schema: Json, current: Json)
    requires schema.JObj? && DistinctKeys(schema.members) && current.JObj?
    requires SetDefault(schema, current).Ok?
    ensures SetDefault(schema, current).value.values.JObj?
    ensures forall k :: k !in Keys(schema.members) ==>
      Get(SetDefault(schema, current).value.values.members, k) == Get(current.members, k)
    ensures forall j :: 0 <= j < |schema.members| ==>
      Applied(schema.members[j].1, Get(current.members, schema.members[j].0),
              Get(SetDefault(schema, current).value.values.members, schema.members[j].0))
  {
    KeysMembers(schema.members);
    SetDefaultFromEffect(schema.members, 0, Filled(current, []));
  }

  /** The promises per kind of schema node, for filling a fresh mapping:
      an "int" Item ends up an int, a "float" Item a float, an Item of any
      other declared type keeps its default as is, an Item without default has
      no key and is warned about, a Group holds a nested mapping, and no key
      outside the schema appears. */
  lemma SetDefaultFresh(schema: Json, j: int)
    requires schema.JObj? && DistinctKeys(schema.members)
    requires SetDefault(schema, JObj([])).Ok?
    requires 0 <= j < |schema.members|
    ensures var f := SetDefault(schema, JObj([])).value;
      var (k, v) := schema.members[j];
      f.values.JObj? &&
      Keys(f.values.members) <= Keys(schema.members) &&
      (IsItem(v) && HasDefault(v) && Get(v.members, "type").value == JStr("int") ==>
        exists n :: ToInt(Get(v.members, "default").value) == Ok(n) && Get(f.values.members, k) == Some(JInt(n))) &&
      (IsItem(v) && HasDefault(v) && Get(v.members, "type").value == JStr("float") ==>
        exists x :: ToFloat(Get(v.members, "default").value) == Ok(x) && Get(f.values.members, k) == Some(JFloat(x))) &&
      (IsItem(v) && HasDefault(v) && Get(v.members, "type").value != JStr("int") && Get(v.members, "type").value != JStr("float") ==>
        Get(f.values.members, k) == Get(v.members, "default")) &&
      (IsItem(v) && !HasDefault(v) ==> k !in Keys(f.values.members) && k in f.warnings) &&
      (!IsItem(v) ==> Get(f.values.members, k).Some? && Get(f.values.members, k).value.JObj?)
  {
    var f := SetDefault(schema, JObj([])).value;
    var (k, v) := schema.members[j];
    SetDefaultEffect(schema, JObj([]));
    assert Applied(v, None, Get(f.values.members, k));
    forall k' | k' in Keys(f.values.members) ensures k' in Keys(schema.members) {
      assert Get(f.values.members, k').Some?;
    }
    SetDefaultWarnings(schema, JObj([]));
    if IsItem(v) && !HasDefault(v) {
      MissingHasItem(schema.members, 0, j);
    }
    if !IsItem(v) {
      var g :| SetDefault(v, JObj([])) == Ok(g) && g.values == Get(f.values.members, k).value;
      SetDefaultKeepsObject(v, JObj([]));
    }
  }

  /** A default-less Item's key is among the missing defaults. */
  lemma {:induction false} MissingHasItem(ms: Members, i: nat, j: int)
    requires i <= j < |ms|
    requires IsItem(ms[j].1) && !HasDefault(ms[j].1)
    ensures ms[j].0 in MissingFrom(ms, i)
    decreases |ms| - i
  {
    if i < j {
      MissingHasItem(ms, i + 1, j);
    }
  }

  /** Filling a mapping gives a mapping. */
  lemma SetDefaultKeepsObject(schema: Json, current: Json)
    requires current.JObj? && SetDefault(schema, current).Ok?
    ensures SetDefault(schema, current).value.values.JObj?
  {
    SetDefaultFromKeepsObject(schema.members, 0, Filled(current, []));
  }

  lemma {:induction false} SetDefaultFromKeepsObject(ms: Members, i: nat, acc: Filled)
    requires i <= |ms| && acc.values.JObj?
    requires SetDefaultFrom(ms, i, acc).Ok?
    ensures SetDefaultFrom(ms, i, acc).value.values.JObj?
    decreases |ms| - i
  {
    if i < |ms| {
      SetDefaultEntryEffect(ms[i].0, ms[i].1, acc);
      SetDefaultFromKeepsObject(ms, i + 1, SetDefaultEntry(ms[i].0, ms[i].1, acc).value);
    }
  }

  /* ---------------- configuration(name) ---------------- */

  /** The empty configuration `{}`. */
  const Empty: Filled := Filled(JObj([]), [])

  /** `configuration(name)`. The result mapping is the configuration; for the
      native object the warnings are those `set_default` printed. */
  function ConfigurationOf(n: Node, name: string, fs: FileSystem): Result<Filled>
    requires Printable(n.index)
  {
    if IsNative(n) then
      var listed :- Index(n.obj, "configurations");
      var confs :- Iter(listed);
      NativeFrom(confs, 0, name, fs, None, Empty)
    else
      var has :- Contains(n.obj, "configurations");
      if !has then Ok(Empty)
      else
        var confs :- Index(n.obj, "configurations");
        var present :- Contains(confs, name);
        if !present then Ok(Empty)
        else
          var v :- Index(confs, name);
          if v.JStr? then
            var loaded :- ReadJson(fs, Join(".", ["config", Tag(n), v.s]));
            Ok(Filled(loaded, []))
          else Ok(Filled(v, []))
  }

  /** `configuration["name"] == name` behind its `"name" in configuration` guard. */
  function NamedEntry(c: Json, name: string): Result<bool>
  {
    var hasName :- Contains(c, "name");
    if hasName then (var nm :- Index(c, "name"); Ok(PyEq(nm, JStr(name)))) else Ok(false)
  }

  /** The native loop over the configuration entries from `i` on. `schema` is
      the Python variable of that name as the previous iterations left it
      (`None` while unbound); a string schema names a file under ".". */
  function NativeFrom(confs: seq<Json>, i: nat, name: string, fs: FileSystem,
                      schema: Option<Json>, acc: Filled): Result<Filled>
    requires i <= |confs|
    decreases |confs| - i
  {
    if i == |confs| then Ok(acc)
    else
      var selected :- NamedEntry(confs[i], name);
      if !selected then NativeFrom(confs, i + 1, name, fs, schema, acc)
      else
        var hasSchema :- Contains(confs[i], "schema");
        var current :- if hasSchema then (var sc :- Index(confs[i], "schema"); Ok(Some(sc))) else Ok(schema);
        if current.None? then Err(UnboundSchema)
        else
          var loaded :- if current.value.JStr? then ReadJson(fs, Join(".", [current.value.s])) else Ok(current.value);
          var filled :- SetDefault(loaded, acc.values);
          NativeFrom(confs, i + 1, name, fs, Some(loaded), Filled(filled.values, acc.warnings + filled.warnings))
  }

  /** `configuration_file(name)`: the file a string configuration is read
      from, "" otherwise. */
  function ConfigurationFile(n: Node, name: string): (r: Result<string>)
    requires Printable(n.index)
  {
    var has :- Contains(n.obj, "configurations");
    if !has then Ok("")
    else
      var confs :- Index(n.obj, "configurations");
      var present :- Contains(confs, name);
      if !present then Ok("")
      else
        var v :- Index(confs, name);
        Ok(if v.JStr? then Join(".", ["config", Tag(n), v.s]) else "")
  }

  /** The value a referenced object's descriptor stores for `name`, if any. */
  function Stored(n: Node, name: string): Option<Json>
  {
    if n.obj.JObj? && "configurations" in Keys(n.obj.members) then
      var confs := Get(n.obj.members, "configurations").value;
      if confs.JObj? && name in Keys(confs.members) then Get(confs.members, name) else None
    else None
  }

  /** `configuration_file` for a descriptor with a `configurations` mapping:
      "" when the name is missing or maps to a non-string, and
      `./config/<tag>/<value>` when it maps to a string value (for an int
      index and a relative value). */
  lemma ConfigurationFileSpec(n: Node, name: string)
    requires Printable(n.index)
    requires n.obj.JObj? && (Get(n.obj.members, "configurations") == None || Get(n.obj.members, "configurations").value.JObj?)
    ensures ConfigurationFile(n, name).Ok?
    ensures Stored(n, name).None? ==> ConfigurationFile(n, name) == Ok("")
    ensures Stored(n, name).Some? && !Stored(n, name).value.JStr? ==> ConfigurationFile(n, name) == Ok("")
    ensures Stored(n, name).Some? && Stored(n, name).value.JStr? ==>
      ConfigurationFile(n, name) == Ok(Join(".", ["config", Tag(n), Stored(n, name).value.s])) &&
      (n.index.JInt? && !IsAbsolute(Stored(n, name).value.s) ==>
        ConfigurationFile(n, name) == Ok("./config/" + Tag(n) + "/" + Stored(n, name).value.s))
  {
    if Stored(n, name).Some? && Stored(n, name).value.JStr? && n.index.JInt? {
      var v := Stored(n, name).value.s;
      if !IsAbsolute(v) {
        TagIsComponent(n);
        JoinRelative3(".", "config", Tag(n), v);
        assert "." + "/" + "config" + "/" == "./config/";
      }
    }
  }

  /** A referenced object's configuration is read from exactly the file
      `configuration_file` names: both fail alike, an empty name means no
      file is read, and a non-empty one is the one file read. */
  lemma ConfigurationReadsConfigurationFile(n: Node, name: string, fs: FileSystem)
    requires Printable(n.index) && !IsNative(n)
    ensures ConfigurationFile(n, name).Err? ==> ConfigurationOf(n, name, fs) == Err(ConfigurationFile(n, name).error)
    ensures ConfigurationFile(n, name) == Ok("") ==>
      ConfigurationOf(n, name, fs).Ok? && ConfigurationOf(n, name, fs) == ConfigurationOf(n, name, map[])
    ensures ConfigurationFile(n, name).Ok? && ConfigurationFile(n, name).value != "" ==>
      var p := ConfigurationFile(n, name).value;
      ConfigurationOf(n, name, fs) == (if p in fs then Ok(Filled(fs[p], [])) else Err(FileNotFound(p)))
  {
    if Stored(n, name).Some? && Stored(n, name).value.JStr? {
      JoinNonEmpty(".", ["config", Tag(n), Stored(n, name).value.s]);
    }
  }

  /** A referenced object's configuration: `{}` when the descriptor has no
      `configurations` or no entry for the name, the stored value itself when
      it is not a string. */
  lemma ReferencedConfiguration(n: Node, name: string, fs: FileSystem)
    requires Printable(n.index) && !IsNative(n)
    requires n.obj.JObj? && (Get(n.obj.members, "configurations") == None || Get(n.obj.members, "configurations").value.JObj?)
    ensures Stored(n, name).None? ==> ConfigurationOf(n, name, fs) == Ok(Filled(JObj([]), []))
    ensures Stored(n, name).Some? && !Stored(n, name).value.JStr? ==>
      ConfigurationOf(n, name, fs) == Ok(Filled(Stored(n, name).value, []))
  {
  }

  /** No entry named `name` from `i` on: the loop ends with what it had. */
  lemma {:induction false} NativeUnselected(confs: seq<Json>, i: nat, name: string, fs: FileSystem,
                                            schema: Option<Json>, acc: Filled)
    requires i <= |confs|
    requires forall j :: i <= j < |confs| ==> NamedEntry(confs[j], name) == Ok(false)
    ensures NativeFrom(confs, i, name, fs, schema, acc) == Ok(acc)
    decreases |confs| - i
  {
    if i < |confs| {
      NativeUnselected(confs, i + 1, name, fs, schema, acc);
    }
  }

  /** Entries before the first named one are skipped. */
  lemma {:induction false} NativeSkips(confs: seq<Json>, i: nat, j: nat, name: string, fs: FileSystem,
                                       schema: Option<Json>, acc: Filled)
    requires i <= j <= |confs|
    requires forall m :: i <= m < j ==> NamedEntry(confs[m], name) == Ok(false)
    ensures NativeFrom(confs, i, name, fs, schema, acc) == NativeFrom(confs, j, name, fs, schema, acc)
    decreases j - i
  {
    if i < j {
      NativeSkips(confs, i + 1, j, name, fs, schema, acc);
    }
  }

  /** The native object's configuration, when exactly one entry carries the
      name and gives an inline schema, is `set_default(schema, {})`: its
      defaults and its warnings. When no entry carries the name it is `{}`. */
  lemma NativeConfiguration(n: Node, name: string, fs: FileSystem, confs: seq<Json>, j: int)
    requires IsNative(n) && n.obj.JObj? && Get(n.obj.members, "configurations") == Some(JArr(confs))
    requires 0 <= j < |confs|
    requires forall m :: 0 <= m < |confs| && m != j ==> NamedEntry(confs[m], name) == Ok(false)
    requires confs[j].JObj? && NamedEntry(confs[j], name) == Ok(true)
    requires "schema" in Keys(confs[j].members) && !Get(confs[j].members, "schema").value.JStr?
    ensures ConfigurationOf(n, name, fs) == SetDefault(Get(confs[j].members, "schema").value, JObj([]))
  {
    var schema := Get(confs[j].members, "schema").value;
    NativeSkips(confs, 0, j, name, fs, None, Empty);
    var r := SetDefault(schema, JObj([]));
    if r.Ok? {
      NativeUnselected(confs, j + 1, name, fs, Some(schema), Filled(r.value.values, [] + r.value.warnings));
      assert [] + r.value.warnings == r.value.warnings;
    }
  }

  /** Two entries carry the name, the first with an inline schema and the
      second without one: the second reuses the schema the first left in
      `schema`, so `set_default` runs twice, the second time on the mapping the
      first filled, and the warnings of both runs are reported in order. */
  lemma NativeSchemaCarried(n: Node, name: string, fs: FileSystem, confs: seq<Json>, j: int, k: int)
    requires IsNative(n) && n.obj.JObj? && Get(n.obj.members, "configurations") == Some(JArr(confs))
    requires 0 <= j < k < |confs|
    requires forall m :: 0 <= m < |confs| && m != j && m != k ==> NamedEntry(confs[m], name) == Ok(false)
    requires confs[j].JObj? && NamedEntry(confs[j], name) == Ok(true)
    requires "schema" in Keys(confs[j].members) && !Get(confs[j].members, "schema").value.JStr?
    requires confs[k].JObj? && NamedEntry(confs[k], name) == Ok(true) && "schema" !in Keys(confs[k].members)
    ensures var schema := Get(confs[j].members, "schema").value;
      var first := SetDefault(schema, JObj([]));
      first.Err? ==> ConfigurationOf(n, name, fs) == Err(first.error)
    ensures var schema := Get(confs[j].members, "schema").value;
      var first := SetDefault(schema, JObj([]));
      first.Ok? ==>
        var second := SetDefault(schema, first.value.values);
        (second.Err? ==> ConfigurationOf(n, name, fs) == Err(second.error)) &&
        (second.Ok? ==>
           ConfigurationOf(n, name, fs) == Ok(Filled(second.value.values, first.value.warnings + second.value.warnings)))
  {
    var schema := Get(confs[j].members, "schema").value;
    NativeSkips(confs, 0, j, name, fs, None, Empty);
    var first := SetDefault(schema, JObj([]));
    if first.Ok? {
      var acc := Filled(first.value.values, [] + first.value.warnings);
      assert [] + first.value.warnings == first.value.warnings;
      NativeSkips(confs, j + 1, k, name, fs, Some(schema), acc);
      var second := SetDefault(schema, first.value.values);
      if second.Ok? {
        var acc2 := Filled(second.value.values, acc.warnings + second.value.warnings);
        NativeUnselected(confs, k + 1, name, fs, Some(schema), acc2);
      }
    }
  }

  /** The first entry carrying the name must give a schema: otherwise
      `schema` is read while unbound. */
  lemma NativeUnboundSchema(n: Node, name: string, fs: FileSystem, confs: seq<Json>, j: int)
    requires IsNative(n) && n.obj.JObj? && Get(n.obj.members, "configurations") == Some(JArr(confs))
    requires 0 <= j < |confs|
    requires forall m :: 0 <= m < j ==> NamedEntry(confs[m], name) == Ok(false)
    requires confs[j].JObj? && NamedEntry(confs[j], name) == Ok(true) && "schema" !in Keys(confs[j].members)
    ensures ConfigurationOf(n, name, fs) == Err(UnboundSchema)
  {
    NativeSkips(confs, 0, j, name, fs, None, Empty);
  }

  /** An "int" Item's string default is parsed. */
  lemma SetDefaultIntExample()
    ensures SetDefault(JObj([("x", JObj([("type", JStr("int")), ("default", JStr("5"))]))]), JObj([]))
         == Ok(Filled(JObj([("x", JInt(5))]), []))
  {
    var item := JObj([("type", JStr("int")), ("default", JStr("5"))]);
    KeysOfTwo("type", JStr("int"), "default", JStr("5"));
    assert Contains(item, "type") == Ok(true);
    assert Index(item, "type") == Ok(JStr("int"));
    assert Contains(item, "default") == Ok(true);
    assert Index(item, "default") == Ok(JStr("5"));
    assert CoerceDefault(JStr("int"), JStr("5")) == Ok(JInt(5)) by {
      ParseIntExamples();
    }
    var cur: Members := [("x", JInt(5))];
    assert Assign(JObj([]), "x", JInt(5)) == Ok(JObj(cur));
    var after := Filled(JObj(cur), []);
    assert SetDefaultEntry("x", item, Filled(JObj([]), [])) == Ok(after);
    var schema := [("x", item)];
    assert SetDefaultFrom(schema, 1, after) == Ok(after);
    assert SetDefaultFrom(schema, 0, Filled(JObj([]), [])) == Ok(after);
  }

  /** A Group gets a fresh nested mapping holding its Items' defaults. */
  lemma SetDefaultGroupExample()
    ensures SetDefault(JObj([("g", JObj([("y", JObj([("type", JStr("float")), ("default", JInt(2))]))]))]), JObj([]))
         == Ok(Filled(JObj([("g", JObj([("y", JFloat(2.0))]))]), []))
  {
    var item := JObj([("type", JStr("float")), ("default", JInt(2))]);
    var group := JObj([("y", item)]);
    KeysOfTwo("type", JStr("float"), "default", JInt(2));
    KeysOfOne("y", item);
    KeysOfOne("g", JObj([]));
    assert Contains(item, "type") == Ok(true);
    assert Index(item, "type") == Ok(JStr("float"));
    assert Index(item, "default") == Ok(JInt(2));
    assert SetDefaultEntry("y", item, Filled(JObj([]), [])) == Ok(Filled(JObj([("y", JFloat(2.0))]), []));
    var inner := Filled(JObj([("y", JFloat(2.0))]), []);
    assert SetDefaultFrom(group.members, 1, inner) == Ok(inner);
    assert SetDefaultFrom(group.members, 0, Filled(JObj([]), [])) == Ok(inner);
    assert SetDefault(group, JObj([])) == Ok(inner);
    assert Contains(group, "type") == Ok(false);
    var cur: Members := [("g", JObj([]))];
    assert cur[1..] == [];
    assert Assign(JObj([]), "g", JObj([])) == Ok(JObj(cur));
    assert Index(JObj(cur), "g") == Ok(JObj([]));
    assert Set(cur, "g", inner.values) == [("g", inner.values)] + cur[1..] == [("g", inner.values)];
    assert Assign(JObj(cur), "g", inner.values) == Ok(JObj([("g", inner.values)]));
    assert Contains(JObj([]), "g") == Ok(false);
    var none: seq<string> := [];
    assert none + inner.warnings == none;
    assert SetDefaultEntry("g", group, Filled(JObj([]), none)) == Ok(Filled(JObj([("g", JObj([("y", JFloat(2.0))]))]), []));
  }

  /** An Item without a default leaves the mapping alone and is warned about. */
  lemma SetDefaultWarningExample()
    ensures SetDefault(JObj([("z", JObj([("type", JStr("string"))]))]), JObj([("a", JBool(true))]))
         == Ok(Filled(JObj([("a", JBool(true))]), ["z"]))
  {
    var item := JObj([("type", JStr("string"))]);
    KeysOfOne("type", JStr("string"));
    KeysOfOne("a", JBool(true));
    assert Contains(item, "type") == Ok(true);
    assert Index(item, "type") == Ok(JStr("string"));
    assert Contains(item, "default") == Ok(false);
    var before := Filled(JObj([("a", JBool(true))]), []);
    var after := Filled(JObj([("a", JBool(true))]), ["z"]);
    assert [] + ["z"] == ["z"];
    assert SetDefaultEntry("z", item, before) == Ok(after);
    var schema := [("z", item)];
    assert SetDefaultFrom(schema, 1, after) == Ok(after);
    assert SetDefaultFrom(schema, 0, before) == Ok(after);
  }
}
