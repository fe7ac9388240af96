# OCCAM object metadata helper, modelled in Dafny

`occam.py` is the helper an OCCAM artifact imports to learn about itself. The
OCCAM system places a descriptor document (`object.json`) in the working
directory. It also passes two environment variables, `OCCAM_OBJECT_TYPE` and
`OCCAM_OBJECT_INDEX`. From these the helper works out which node of the
descriptor tree the process stands for: the *native* object (no index) or a
*referenced* one, found by type and index among the inputs. It then answers
questions about that node: its name, type, id and revision with defaults, its
volume, path and initialisation path, its files, its inputs and outputs, and
its configuration. The configuration comes either from the defaults of a
configuration schema or from a stored value or file. Finally the helper writes
a few small JSON documents: the `object.json` sidecar of an output directory,
the run list of `report`, and the warnings/errors merge of `finish`.

The model keeps the Python semantics that decide results:

- JSON values are a datatype whose dicts keep insertion order (`PyJson.Json`).
- Python's `in`, `[]`, `[] =`, iteration, `==` and `str()` are each modelled
  once (`Contains`, `Index`, `Assign`, `Iter`, `PyEq`, `Str`).
- A Python exception becomes an `Err` of a `Result`. The exceptions left to preconditions are listed under "## Left out".
- POSIX `os.path.join` is modelled exactly (`Paths.Join2`, `Paths.Join`).
- Files are a map from path to parsed document (`PyJson.FileSystem`).

Modules, one file each: `PyJson` (json.dfy), `Coerce` (coerce.dfy), `Paths`
(paths.dfy), `Locate` (lookup.dfy), `Descriptor` (descriptor.dfy),
`Configuration` (config.dfy), `Metadata` (metadata.dfy).

## Model

| member | source | states |
|---|---|---|
| PyJson.Get | occam.py:18 | `d.get(k)`: a value is returned exactly when `k` is a key |
| PyJson.GetMember | occam.py:18 | the value `d.get(k)` returns is the value of a member with key `k` |
| PyJson.Set | occam.py:132 | `d[k] = v`: afterwards `k` maps to `v`, every other key is unchanged, the key set grows by `k` only, and a new key is appended at the end |
| PyJson.SetExisting | occam.py:132 | assigning a key the value it already holds leaves the dict unchanged |
| PyJson.Contains | occam.py:137 | `k in c` succeeds exactly on dicts, lists and strings; on a dict it is the key test |
| PyJson.Index | occam.py:155-156 | `c[k]` succeeds exactly when `c` is a dict holding `k`, and returns that key's value |
| PyJson.Assign | occam.py:138 | `c[k] = v` succeeds exactly on dicts; `k` then maps to `v` and no other key changes |
| PyJson.Iter | occam.py:144 | a `for` loop runs over a list's items, a dict's keys in order, or a string's one-character strings in order; anything else raises |
| PyJson.GetOr | occam.py:115 | `d.get(k, default)` is the stored value when `k` is a key and the default otherwise |
| PyJson.First | occam.py:43 | `c[0]` succeeds exactly on a non-empty list or string, and on a list it is the first item |
| PyJson.Str | occam.py:89-90 | `str(None)` is "None" and `str(s)` of a string is the string itself |
| PyJson.ReadJson | occam.py:149-150 | `json.load(open(p))` succeeds exactly when the file exists, yields its document, and otherwise fails naming `p` |
| PyJson.PyEq | occam.py:18 | Python `==`: numbers (bools included) compare by value, anything else structurally; no contract of its own, `Locate.Matches` and `Descriptor.Selected` use it |
| PyJson.IntToString | occam.py:89-90 | `str(i)` starts with '-' exactly for negative `i`, and is otherwise digits only: a non-empty run after the optional '-', with no leading zero unless it is "0" |
| Coerce.ParseInt | occam.py:282 | `int(s)` succeeds exactly on an optionally signed non-empty run of digits, and is non-negative without a sign; its value is pinned by the round trips and the sign and leading-zero lemmas below |
| Coerce.IntRoundTrip | occam.py:282 | `int(str(i)) == i` for every integer `i` |
| Coerce.IntToStringCanonical | occam.py:89-90 | `str(i)` is in decimal form: an optional '-', digits without a leading zero, never "-0" |
| Coerce.DigitsPrintRoundTrip | occam.py:282 | a digit run without a leading zero is the printed form of its value |
| Coerce.PrintParseRoundTrip | occam.py:282 | `str(int(s)) == s` for every string in decimal form, so `str` and `int` are inverse on decimal forms |
| Coerce.DigitsLeadingZero | occam.py:282 | a leading '0' does not change the value of a digit run |
| Coerce.ParseIntLeadingZero | occam.py:282 | `int("0" + d) == int(d)` for a non-empty digit run `d`, e.g. `int("007") == 7` |
| Coerce.ParseIntPlus | occam.py:282 | `int("+" + d) == int(d)` for a non-empty digit run `d` |
| Coerce.ParseIntMinus | occam.py:282 | `int("-" + d) == -int(d)` for a non-empty digit run `d`, e.g. `int("-0") == 0` |
| Coerce.ParseFloat | occam.py:131 | `float(s)` for a string; it succeeds only when `s` holds a digit; its values are stated by `Coerce.ParseFloatExtendsParseInt` and `Coerce.ParseFloatExample` |
| Coerce.Truncate | occam.py:129 | `int()` of a float truncates toward zero: the result lies within 1 of the float, on the zero side |
| Coerce.ParseFloatExtendsParseInt | occam.py:128-131 | every string `int()` accepts, `float()` accepts with the same value |
| Coerce.ToInt | occam.py:128-129 | `int(v)` succeeds on numbers, bools and integer strings; it keeps ints, maps bools to 1 and 0, truncates a float toward zero, and parses a string as `Coerce.ParseInt` does |
| Coerce.ToFloat | occam.py:130-131 | `float(v)` succeeds on numbers and decimal strings and keeps a number's value |
| Coerce.CoerceDefault | occam.py:128-131 | a default of declared type "int" becomes `int(default)`, of "float" `float(default)`; any other declared type passes it through |
| Coerce.CoerceIdempotent | occam.py:129-131 | coercing an already coerced default gives it back, so the schema rewrite of `default` does not change a second pass |
| Coerce.ParseIntExamples | occam.py:128-131 | `int("5") == 5`, `int("-12") == -12`, and `int("5.0")` raises |
| Coerce.ParseFloatExample | occam.py:128-131 | `float("1.5") == 1.5` |
| Paths.Join2 | occam.py:97 | two-part `os.path.join`; stated by `Paths.Join2Shape` |
| Paths.Join | occam.py:94-111 | many-part `os.path.join`, folded left over `Paths.Join2`; stated by `Paths.JoinAppend`, `Paths.JoinRelative`, `Paths.JoinRelative3`, `Paths.JoinAbsolute` and `Paths.JoinNonEmpty` |
| Paths.Join2Shape | occam.py:97 | `os.path.join(a, b)` ends in `b`; an absolute `b` replaces `a`; otherwise `a` is a prefix, followed by one '/' when `a` is non-empty and does not end in '/' |
| Paths.JoinAppend | occam.py:159 | joining in two steps equals joining all parts at once |
| Paths.JoinRelative | occam.py:104 | with relative, slash-free middle parts, `join(a, b, c)` is `a + "/" + b + "/" + c` |
| Paths.JoinRelative3 | occam.py:159 | the four-part form `join(".", "config", tag, v)` is plain '/'-concatenation |
| Paths.JoinAbsolute | occam.py:97 | an absolute last part wins over everything before it |
| Paths.JoinNonEmpty | occam.py:171 | joining onto a non-empty start never yields "" |
| Paths.Slug | occam.py:65-66 | `replace('/', '-').lower()` keeps the length, leaves no '/', and maps each character as stated |
| Paths.SlugIdempotent | occam.py:65-66 | a slug is its own slug |
| Locate.Lookup | occam.py:14-30 | the search as written, over a node, its `input` list and its `output` list, with the restart value as a parameter; no contract of its own, `Locate.LookupIsFirstHit` states its result |
| Locate.LookupRoot | occam.py:14-16 | the search from the document root, where a null restarts it without end; stated by `Locate.LookupRootSpec` |
| Locate.ObjectLookup | occam.py:43 | `lookup(type, index, data)` on the helper's document: a null restarts at the root; stated through `Descriptor.LoadedBy` and `Descriptor.LoadInternalFirstMatch` |
| Locate.Matches | occam.py:18 | `data.get('type') == type and data.get('index') == index` on a dict, with Python `==` (`PyJson.PyEq`); used by `Locate.LookupFindsMatch` and `Locate.LookupRootSpec` |
| Locate.FirstHitSpec | occam.py:20-30 | scanning a traversal yields None exactly when no step matches, raises or restarts; otherwise it yields what the first such step yields |
| Locate.FirstHitSingle | occam.py:15-19 | a one-step traversal yields that step's outcome |
| Locate.FirstHitAppend | occam.py:21-28 | the output subtrees are searched only when the node and its input subtrees yield nothing |
| Locate.LookupIsFirstHit | occam.py:14-30 | `lookup` returns exactly the first hit of its pre-order traversal: the node, then each `input` subtree, then each `output` subtree, in array order |
| Locate.LookupEdgesIsFirstHit | occam.py:21-28 | the loop over `input` (or `output`) returns the first hit of the concatenated subtree traversals |
| Locate.LookupInIsFirstHit | occam.py:21 | iterating an edge value visits a list's items; strings and non-iterables behave as Python does |
| Locate.LookupListIsFirstHit | occam.py:21-24 | the loop stops at the first subtree whose search is not None |
| Locate.LookupRootSpec | occam.py:14-30 | from the root: a returned node matches type and index and no earlier visited node does; None exactly when every visited node is a non-matching dict; an error only when some step is not a dict |
| Locate.LookupFindsMatch | occam.py:18-19 | whatever a subtree search returns is a node matching type and index |
| Locate.LookupWalkable | occam.py:14-30 | on a tree of dicts the search never raises, and finds a node exactly when some visited node matches |
| Locate.LookupSelf | occam.py:18-19 | a matching node is returned at once, whatever its subtrees hold |
| Locate.MemberSmaller | occam.py:21-28 | a subtree is smaller than its parent, so the search terminates on finite trees |
| Descriptor.SelectType | occam.py:274-279 | the type is the environment's `OCCAM_OBJECT_TYPE`, else the document's `type`; it raises exactly when both are missing |
| Descriptor.SelectIndex | occam.py:281-284 | the index is None exactly when `OCCAM_OBJECT_INDEX` is unset, else `int()` of its value |
| Descriptor.Primary | occam.py:43 | the search start is the first item of the document's `input` list; a missing `input` raises KeyError, an empty list IndexError, a non-dict document an error |
| Descriptor.LoadInternal | occam.py:48-54 | the node keeps the document and the requested index; its descriptor is what `lookup(type, index, major['input'][0])` returns (None as `JNull`), a node matching type and index; it raises exactly when reading the start or the search raises |
| Descriptor.LoadInternalFirstMatch | occam.py:48-54 | when the search from the start neither raises nor restarts, loading succeeds, finds a descriptor exactly when some node of the pre-order traversal matches, and finds the first such node |
| Descriptor.Load | occam.py:33-46 | `Occam.load`: the node is native exactly when the index variable is unset, and then its descriptor is the whole document; a referenced node gets the parsed index and the descriptor `lookup(type, index, major['input'][0])` returns; once the type is known and the index variable is unset, loading succeeds with the whole document as the native node; it raises exactly when the type is unknown, the index does not parse, or the referenced load raises |
| Descriptor.Attribute | occam.py:59-84 | on a dict descriptor an attribute it holds is read as stored and an absent one takes the default; on None, a number or a bool `in` raises TypeError; on a list or string the default is returned unless the key is in it, when indexing raises TypeError |
| Descriptor.Name | occam.py:59-63 | `name()`: `Descriptor.Attribute` with default "unnamed" |
| Descriptor.Type | occam.py:68-72 | `type()`: `Descriptor.Attribute` with default "object" |
| Descriptor.Id | occam.py:74-78 | `id()`: `Descriptor.Attribute` with default "" |
| Descriptor.Revision | occam.py:80-84 | `revision()`: `Descriptor.Attribute` with default "" |
| Descriptor.AttributeDefaults | occam.py:59-84 | absent attributes read as name "unnamed", type "object", id "" and revision ""; a node whose lookup found nothing raises on all four |
| Descriptor.SlugType | occam.py:65-66 | the type slug has the type's length, contains no '/', and is the type lowercased with '/' replaced by '-'; it raises what `type()` raises, and AttributeError when the type is not a string |
| Descriptor.Tag | occam.py:89-90 | the tag is "None" for the native object and the decimal index otherwise |
| Descriptor.TagIsComponent | occam.py:89-90 | an int index gives a non-empty tag without '/' |
| Descriptor.Volume | occam.py:92-97 | native: `./occam-run/<slug>-<id>`; referenced: `/occam/<id>-<revision>`, or `<id>-<revision>` when the id is absolute |
| Descriptor.VolumeSharedByIdentity | occam.py:96-97 | referenced nodes with equal id and revision have equal volumes |
| Descriptor.NodeDirectory | occam.py:99-111 | native: `./occam-run/None`; referenced: `./<root>/<tag>`, or the tag itself when it is absolute (working directory under `objects`, initialisation under `init`) |
| Descriptor.Path | occam.py:99-104 | `path()`: `Descriptor.NodeDirectory` under `objects` |
| Descriptor.InitializationPath | occam.py:106-111 | `initializationPath()`: `Descriptor.NodeDirectory` under `init` |
| Descriptor.NativeRunDirectory | occam.py:101 | the native run directory is `./occam-run/None` |
| Descriptor.PathsOfNativeCoincide | occam.py:99-111 | the native object's path and initialisation path are both `./occam-run/None`; a referenced object's differ when its tag is relative (an int index always gives one, `Descriptor.TagIsComponent`) |
| Descriptor.Files | occam.py:113-118 | `files()` succeeds exactly when `files` is iterable with string entries; it keeps length and order, each entry `os.path.join(volume, file)` of the listed file |
| Descriptor.JoinAll | occam.py:115-116 | the loop over the listed files joins each onto the base, in order |
| Descriptor.Selected | occam.py:232 | the edges `type is None or info['type'] == type` keeps, in order (also occam.py:242); stated by `Descriptor.SelectedSpec` and `Descriptor.SelectedAppend` |
| Descriptor.SelectedSpec | occam.py:228-244 | the edges kept are listed edges of the requested type, and every listed edge of that type is kept; None keeps every edge |
| Descriptor.SelectedAppend | occam.py:231-233 | filtering keeps the listed order: filtering a concatenation is concatenating the filtered parts |
| Descriptor.ResolveEdges | occam.py:230-233 | one node per kept edge, in order, each what `load_internal(info['type'], info['index'])` builds: the edge's index and the descriptor the lookup from `major['input'][0]` returns; it succeeds exactly when every listed edge is a dict, has a `type` when one is asked for, and, when kept, has `type` and `index` and loads |
| Descriptor.Edges | occam.py:228-244 | `inputs(type)`/`outputs(type)` return one node per edge of the type, in order, each loaded by lookup in the same document; an unresolved node raises AttributeError; on an iterable edge list it succeeds exactly when every listed edge resolves as in `Descriptor.ResolveEdges` |
| Descriptor.Outputs | occam.py:228-236 | `outputs(type)`: `Descriptor.Edges` over `output` |
| Descriptor.Inputs | occam.py:238-244 | `inputs(type)`: `Descriptor.Edges` over `input` |
| Configuration.SetDefault | occam.py:121-139 | `set_default(schema, current)`: the filled mapping and its warnings; stated by `Configuration.SetDefaultWarnings` and `Configuration.SetDefaultEffect` |
| Configuration.SetDefaultFrom | occam.py:122-139 | the loop over the schema's members from a given one on; stated by `Configuration.SetDefaultFromWarnings` and `Configuration.SetDefaultFromEffect` |
| Configuration.SetDefaultEntry | occam.py:123-139 | one schema member, Item or Group; stated by `Configuration.SetDefaultEntryWarnings` and `Configuration.SetDefaultEntryEffect` |
| Configuration.SetDefaultWarnings | occam.py:121-139 | the warnings are exactly the schema's Items without a default, in schema order, whatever the mapping already holds |
| Configuration.SetDefaultFromWarnings | occam.py:122-139 | the loop appends, member by member, the keys of default-less Items |
| Configuration.SetDefaultEntryWarnings | occam.py:123-139 | one schema member warns about its own key if it is a default-less Item, and about its Group's missing defaults otherwise |
| Configuration.SetDefaultEntryEffect | occam.py:123-139 | one schema member changes only its own key, as `Applied` prescribes |
| Configuration.SetDefaultFromEffect | occam.py:122-139 | keys no remaining member names keep their values, and each member's key ends as `Applied` prescribes |
| Configuration.SetDefaultEffect | occam.py:121-139 | keys outside the schema are untouched; an Item with a default gets its coerced default; an Item without one keeps its previous value; a Group gets the filled previous mapping, or a filled `{}` |
| Configuration.SetDefaultFresh | occam.py:121-139 | on `{}`: an "int" Item becomes an int, a "float" Item a float, other Items keep the default; a default-less Item has no key and is warned about; a Group holds a mapping; no key outside the schema appears |
| Configuration.MissingHasItem | occam.py:133-134 | every default-less Item is warned about |
| Configuration.SetDefaultKeepsObject | occam.py:137-139 | filling a mapping yields a mapping |
| Configuration.SetDefaultIntExample | occam.py:128-132 | `{"x": {"type": "int", "default": "5"}}` fills `{}` to `{"x": 5}` |
| Configuration.SetDefaultGroupExample | occam.py:136-139 | a Group holding a "float" Item with default 2 fills `{}` to `{"g": {"y": 2.0}}` |
| Configuration.SetDefaultWarningExample | occam.py:133-134 | an Item without default leaves the mapping as it was and warns about its key |
| Configuration.ConfigurationOf | occam.py:141-162 | `configuration(name)`: the native branch fills defaults, the referenced branch reads the stored value or file; stated by `Configuration.NativeConfiguration` and `Configuration.ConfigurationReadsConfigurationFile` |
| Configuration.NamedEntry | occam.py:145 | `"name" in configuration and configuration["name"] == name`; used by the native configuration lemmas |
| Configuration.NativeFrom | occam.py:144-152 | the loop over the native object's configurations, carrying `schema` between iterations; stated by `Configuration.NativeUnselected`, `Configuration.NativeSkips`, `Configuration.NativeConfiguration`, `Configuration.NativeSchemaCarried` and `Configuration.NativeUnboundSchema` |
| Configuration.ConfigurationFile | occam.py:165-174 | `configuration_file(name)`; stated by `Configuration.ConfigurationFileSpec` |
| Configuration.ConfigurationFileSpec | occam.py:165-174 | `configuration_file` is "" when `configurations` or the name is missing or the value is not a string, and `./config/<tag>/<value>` for a string value |
| Configuration.ConfigurationReadsConfigurationFile | occam.py:153-174 | a referenced configuration reads exactly the file `configuration_file` names: both fail alike, "" means no file is read, otherwise it is that file's document or a missing-file error |
| Configuration.ReferencedConfiguration | occam.py:153-157 | a referenced configuration is `{}` when `configurations` or the name is missing, and the stored value itself when that is not a string |
| Configuration.NativeUnselected | occam.py:144-145 | entries whose name differs do not change the result |
| Configuration.NativeSkips | occam.py:144-145 | entries before the first one with the name are skipped |
| Configuration.NativeConfiguration | occam.py:141-152 | with one entry carrying the name and an inline schema, the native configuration is `set_default(schema, {})`, values and warnings |
| Configuration.NativeSchemaCarried | occam.py:144-152 | with two named entries, the first with an inline schema and the second without one, the second reuses that schema: `set_default` runs again on the mapping the first filled, and the warnings of both runs are reported in order |
| Configuration.NativeUnboundSchema | occam.py:146-148 | a first named entry without `schema` raises (the variable is unbound) |
| Metadata.MergeSidecar | occam.py:187-189 | the sidecar merge sets `files` to `[output_file]`, sets `name` unless it is None, and keeps every other key; a non-dict sidecar raises |
| Metadata.MergeSidecarIdempotent | occam.py:187-189 | merging a merged sidecar again changes nothing |
| Metadata.UpdateSidecar | occam.py:183-190 | writing the merged sidecar changes that one file and starts from `{}` when there is none |
| Metadata.UpdateSidecarIdempotent | occam.py:183-190 | repeating a sidecar update changes nothing |
| Metadata.WriteSidecar | occam.py:182-191 | the sidecar goes to `<dir>/object.json` and the returned path is `<dir>/<output_file>` |
| Metadata.WriteSidecarAsWritten | occam.py:182-191 | the sidecar write as the code has it; `Metadata.WriteSidecarFresh` and `Metadata.WriteSidecarAsWrittenFailsTwice` state it |
| Metadata.WriteSidecarFresh | occam.py:182-191 | where no sidecar exists, the code as written and the intended merge agree |
| Metadata.WriteSidecarAsWrittenFailsTwice | occam.py:183-186 | as written, a second write of the same output fails reading the sidecar the first wrote |
| Metadata.WriteSidecarKeepsKeys | occam.py:183-190 | as intended, an existing sidecar keeps every key other than `files` and `name` |
| Metadata.WriteSidecarIdempotent | occam.py:183-190 | as intended, repeating a write changes nothing |
| Metadata.OutputPath | occam.py:176-191 | `output_path`, with the corrected sidecar write: writes the sidecar in `realpath(path())` joined with the output directory, and returns a path ending in the output file |
| Metadata.OutputGeneratedPath | occam.py:193-214 | `output_generated_path`, with the corrected sidecar write; stated by `Metadata.OutputGeneratedPathSpec` and `Metadata.OutputGeneratedPathNeedsType` |
| Metadata.OutputGeneratedPathSpec | occam.py:193-214 | `output_generated_path`, with the corrected sidecar write, returns None, writing nothing, exactly when no output edge has the type; otherwise it writes into the first such output's volume |
| Metadata.OutputGeneratedPathNeedsType | occam.py:194-202 | without a type the call raises |
| Metadata.CommandStep | occam.py:319-323 | one run entry `{variables: env, command: c, stdout: "output.raw"}`; used by `Metadata.CommandSteps` |
| Metadata.CommandsOf | occam.py:317-329 | a list command gives its items, anything else gives itself; stated by `Metadata.RunListCommands` |
| Metadata.CommandSteps | occam.py:314-320 | one step per command, in order, each `{variables: env, command: c, stdout: "output.raw"}` |
| Metadata.RunList | occam.py:311-334 | `len(commands)` steps (1 for a non-list command), then `{command: finish}` when `finish` is given |
| Metadata.RunListCommands | occam.py:311-334 | reading the commands back out of the run list gives the reported commands, then the finishing one |
| Metadata.Report | occam.py:311-340 | `report` replaces the report file with the run list and changes no other file |
| Metadata.ReportFile | occam.py:336 | the file `report` writes, `join(".", "init", tag, "run.json")`; stated by `Metadata.InitRunFile` and `Metadata.ReportFileLocation` |
| Metadata.InitRunFile | occam.py:336 | for a plain tag the report file is `./init/<tag>/run.json` |
| Metadata.ReportFileLocation | occam.py:336 | a referenced object's report is `<initializationPath>/run.json`; the native one's is `./init/None/run.json`, not under `./occam-run/None` |
| Metadata.FinishFile | occam.py:295 | the file `finish` merges into, `<path>/run.json`; `Metadata.ReportAndFinishFilesDiffer` states it |
| Metadata.FinishMerge | occam.py:303-304 | the run information gets `warnings` and `errors` set and keeps every other key; a run file that is not a dict raises |
| Metadata.FinishMergeIdempotent | occam.py:303-304 | merging the same lists twice is merging once |
| Metadata.Finish | occam.py:289-308 | `finish` merges into `<path>/run.json`, starting from `{}` when it is absent, writes the result back and changes no other file |
| Metadata.FinishIdempotent | occam.py:295-308 | finishing twice with the same lists is finishing once |
| Metadata.ReportAndFinishFilesDiffer | occam.py:291-336 | `report` and `finish` never write the same file |
| Metadata.FinishAfterReport | occam.py:289-340 | a report leaves the finish file alone: finishing after a report succeeds exactly when finishing before it would, and writes the same run information |

## Left out

- File I/O is a map from path to parsed document. Nothing models `json.dumps` formatting, directories, `os.mkdir`, `os.path.exists` on directories, or a file that exists but does not parse. `os.path.realpath` is the parameter `realpath`.
- Environment variables are a `map<string, string>` given to `Descriptor.Load`. The descriptor document is given already parsed.
- `Descriptor.Load` requires the descriptor document to be a JSON object: `"type" in major_object` and `major_object['input']` on other values are not modelled.
- `command()` and `env()` are not modelled. They cache one run file but read it from two different paths. `report` writes that file as a list, so their `"command" in ...` tests have no settled meaning.
- `output()` is not modelled. It only formats `<path()>/run-out.raw`, and `Descriptor.Path` is modelled.
- `configurations()` and `dependencies()` are not modelled. They are one-line accessors with no logic beyond a default.
- launch.py is not part of this model. It writes a tool's activation file and starts a shell command.
- `Coerce.ParseInt`: Python's `int()` also accepts surrounding whitespace and non-ASCII digits; these are not modelled and are treated as errors.
- `Coerce.ParseFloat`: exponents, "inf", "nan", whitespace and '_' are not parsed. A float is its exact real value, so rounding to binary64 is not modelled.
- `Paths.Slug`: lower-casing maps ASCII letters only.
- `PyJson.Json`: dicts keep insertion order, as in Python 3.7 and later. `occam.py` tests for `unicode`, so it is Python 2 code, and a Python 2 dict iterates in an arbitrary order. The order of set_default's warnings and of its filled members assumes the insertion order.
- `PyJson.Get`: parsed documents are assumed to have distinct keys. `json.load` keeps the last value of a repeated key, while `Get` returns the first member with the key.
- `Descriptor.Volume`: it requires a descriptor that is a dict (`VolumeDefined`). On a node whose lookup found nothing, `id()` raises TypeError, which `Descriptor.Attribute` models but `Volume` does not propagate.
- `Descriptor.Files`: it requires `VolumeDefined` as `Descriptor.Volume` does, so the TypeError of `files()` on a node whose lookup found nothing, and a non-printable id or revision, are not modelled.
- `PyJson.Str`: `str()` of floats, lists and dicts is not modelled. Paths need the tag, id and revision to be None, a bool, an int or a string (`Printable`, `VolumeDefined`). Any other id or revision counts as an error in `Metadata.OutputGeneratedPath`.
- `PyJson.PyEq`: numbers compare across int, float and bool; containers compare structurally. So `{"a": 1} == {"a": 1.0}` is false here, but true in Python. Dicts compare as member lists in order, so `{"a": 1, "b": 2}` and `{"b": 2, "a": 1}` differ here, while Python compares dicts regardless of member order.
- `Configuration.NativeFrom`: `set_default` also writes each coerced default back into the schema. The model does not return the mutated schema. The next iteration carries the schema as loaded, and `Coerce.CoerceIdempotent` shows that coercing again gives the same values.
- The error kinds of `Err` are descriptive only. A contract distinguishes them only where the source does: the unknown type, the unbound schema, a missing file, the unreadable sidecar.

## Findings

| source | as written | input that shows it | evidently intended | confidence | as-written member | corrected member |
|---|---|---|---|---|---|---|
| occam.py:183-186 and occam.py:206-209 | the sidecar is opened with 'w+', which empties it, and is then read with `json.load` | call `output_path` twice for the same directory: the second `json.load` reads an empty file and raises | read the existing sidecar, merge `files` and `name`, and keep its other keys | high (not executed) | Metadata.WriteSidecarAsWritten, shown by Metadata.WriteSidecarAsWrittenFailsTwice | Metadata.WriteSidecar, proved by Metadata.WriteSidecarKeepsKeys and Metadata.WriteSidecarIdempotent |
