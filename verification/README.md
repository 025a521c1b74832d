# fastapi-versioning, modelled in Dafny

This project models the route-versioning core of `fastapi_versioning/versioning.py`:

- the `version` decorator, which stamps a `(major, minor)` version and a custom prefix on a route handler;
- `version_to_route`, which reads that tag back and falls back to the default version and the empty prefix;
- the body of `VersionedFastAPI`:
  - it files every route into a bucket keyed by `(major, minor, custom_prefix)`;
  - it visits the buckets in ascending key order;
  - for each bucket it builds a mount prefix and a version label from the two templates;
  - it keeps a cumulative de-duplication dictionary keyed by `path|method` (by mount prefix and `path|method` when `invert_prefix` is set);
  - it mounts the routes that dictionary holds;
  - optionally it adds a `/latest` alias.

The framework objects are replaced by what they carry. A route is a record holding a path, a sequence of methods and a handler. The handler holds an optional version and an optional custom prefix, the two attributes the decorator sets. The result of the routine is the list of sub-applications mounted on the parent, in mounting order. Each sub-application is a `Mount` record: prefix, version label, routes in order, and the documentation paths `<prefix>/docs` and `<prefix>/openapi.json`. The lemmas about a successful run state their precondition as `Buildable`, a condition on the inputs that holds exactly when the routine succeeds (`VersioningProperties.BuildableOk`).

Modules:

- `Seqs` (seqs.dfy): a few facts about sequence concatenation that the proofs share.
- `Results` (results.dfy): `Option`, `Result`, and the error kinds.
- `Decimal` (decimal.dfy): the decimal text of an integer, as `str()` of a Python int writes it.
- `Template` (format_template.dfy): the part of `str.format` the templates use. A template is lexed left to right into pieces: literal characters, where `{{` and `}}` stand for one brace; `{major}`; `{minor}`; any other field; or a malformed brace. The pieces are then rendered, and the first piece that cannot be printed is the error.
  - An unknown field (Python's `KeyError`) is one error.
  - A lone `{` or `}`, an unclosed field, or a `{` inside a field name (Python's `ValueError`) is another.
  - A template is only ever filled when at least one bucket exists.
- `OrderedDict` (ordered_dict.dfy): Python dict semantics on an association list. A new key goes to the end. An existing key takes the new value and keeps its position.
- `Tags` (tags.dfy): the decorator and the tag lookup.
- `KeyOrder` (key_order.dfy): Python's tuple and string ordering on `(major, minor, custom_prefix)`, and `sorted` over the distinct keys.
- `Bucketing` (bucketing.dfy): the `defaultdict(list)` of buckets.
- `Versioning` (versioning.dfy): the routine itself (`Build`), one loop turn (`Step`), and the loop (`Process`).
- `VersioningProperties` (versioning_properties.dfy): failure behaviour, visiting order, and the prefix, label and dictionary state of each mount.
- `MountContents` (mount_contents.dfy): which routes each mount receives, in plain mode, in inverted mode, and for `/latest`.

Behaviour of the code as written, which the model follows:

- With `enable_latest` and no routes, the `/latest` step reads the loop variable `version`, which was never bound. The routine then fails (`UnboundVersion`).
- In plain mode the bucket order includes the custom prefix. A mount therefore also receives the routes of every smaller key, including keys with other custom prefixes. For example, `(1, 0, "/b")` sees the routes of `(1, 0, "/a")`, and `(2, 0, "")` sees those of `(1, 0, "/z")`.
- In inverted mode the dictionary key includes the full mount prefix. The same path under two versions of one custom prefix is therefore kept twice. A mount selects the keys whose mount prefix merely starts with its custom prefix, so `/a` also selects entries mounted under `/ab...`. A bucket with the empty custom prefix mounts every entry.
- The `/latest` label is the formatted label template alone, without the custom prefix of the last bucket.
- `unknown placeholder` is not the only template error: malformed braces also raise, and they are modelled as a separate error kind.

## Model

| member | source | states |
|---|---|---|
| `Tags.Stamp` | fastapi_versioning/versioning.py:11-17 | the decorated handler is the same handler carrying exactly version `(major, minor)` and the prefix; minor defaults to 0 and prefix to the empty string |
| `Tags.StampThenLookup` | fastapi_versioning/versioning.py:11-27 | reading back a stamped handler gives the stamped tag whatever the default; omitted decorator arguments read back as minor 0 and the empty prefix |
| `Tags.StampOverrides` | fastapi_versioning/versioning.py:11-17 | decorating a handler twice leaves the tag of the decorator applied last, since each application overwrites both attributes |
| `Tags.VersionToRoute` | fastapi_versioning/versioning.py:20-27 | an untagged handler gets the default version, a missing prefix reads as empty, a present tag is kept, and the route is passed through unchanged |
| `Bucketing.Bucket` | fastapi_versioning/versioning.py:43-52 | the bucket keys are the distinct tag keys in order of first appearance; each bucket holds exactly the routes with its key, in input order; no other key has a bucket |
| `Bucketing.BucketPartition` | fastapi_versioning/versioning.py:43-55 | reading the buckets in sorted key order yields every input route exactly as often as it came (a partition: nothing lost, nothing duplicated) |
| `KeyOrder.StrLessMeaning` | fastapi_versioning/versioning.py:55 | string order is Python's: a proper prefix is smaller, otherwise the first differing character decides |
| `KeyOrder.KeyLessStrictTotal` | fastapi_versioning/versioning.py:55 | tuple order on `(major, minor, custom_prefix)` is irreflexive, transitive and total |
| `KeyOrder.SortKeys` | fastapi_versioning/versioning.py:55 | sorting distinct keys gives a strictly ascending sequence of the same keys |
| `KeyOrder.StrictlySortedUnique` | fastapi_versioning/versioning.py:55 | two strictly ascending sequences of the same keys are equal, so the sorted order is fully determined |
| `VersioningProperties.BuildVisitsSortedKeys` | fastapi_versioning/versioning.py:55-56 | buckets are visited in strictly ascending key order, each key of some input route exactly once, one mount per bucket, plus `/latest` when asked for |
| `Decimal.IntToStringRoundTrip` | fastapi_versioning/versioning.py:58 | the decimal text a number is formatted with reads back as that number |
| `Decimal.IntToStringInjective` | fastapi_versioning/versioning.py:58 | different numbers are formatted differently |
| `Template.Format` | fastapi_versioning/versioning.py:58 | filling a template succeeds exactly when every lexed piece is printable; otherwise it fails with the error of the first piece that is not (its pieces are characterised by `Template.LexUnparse` and `Template.UnparseLex`) |
| `Template.BraceInFieldFront` | fastapi_versioning/versioning.py:58 | a `{` inside a field name, after any brace-free text and whatever follows it, makes the template malformed, as Python raises `ValueError` for it, rather than naming an unknown field |
| `Template.RenderOutcome` | fastapi_versioning/versioning.py:58-60 | formatting succeeds exactly when every piece is printable; otherwise the error is that of the first unprintable piece, read left to right |
| `Template.LexUnparse` | fastapi_versioning/versioning.py:58-60 | lexing the text of well-formed pieces gives those pieces back |
| `Template.UnparseLex` | fastapi_versioning/versioning.py:58-60 | a template without malformed braces is exactly the text of its lexed pieces |
| `Template.FormatOutcomeIndependent` | fastapi_versioning/versioning.py:58-60 | whether a template can be filled, and the error it fails with, do not depend on the version numbers |
| `Template.TwoPlaceholderFormat` | fastapi_versioning/versioning.py:58-60 | brace-free text around one `{major}` followed later by one `{minor}` (in that order) is filled by the decimal texts of the two numbers in their places |
| `Template.DefaultPrefixFormat` | fastapi_versioning/versioning.py:33 | the default mount template yields `/v<major>_<minor>` |
| `Template.DefaultLabelFormat` | fastapi_versioning/versioning.py:32 | the default label template yields `<major>.<minor>` |
| `OrderedDict.GetSpec` | fastapi_versioning/versioning.py:72 | a lookup finds a key exactly when it is present, with the value stored beside it |
| `OrderedDict.Put` | fastapi_versioning/versioning.py:69-76 | one dict assignment: an existing key keeps its position and takes the new value, a new key goes last, no other key changes, keys stay distinct |
| `OrderedDict.PutAllSpec` | fastapi_versioning/versioning.py:67-76 | after a batch of assignments the keys are the old keys, then the new ones in order of first assignment; each assigned key holds its last assigned value (last writer wins, first position kept); other keys are untouched |
| `OrderedDict.PutAllConcat` | fastapi_versioning/versioning.py:56-76 | assigning bucket after bucket equals assigning all of them in one batch |
| `OrderedDict.FreshPutAll` | fastapi_versioning/versioning.py:77-78 | a dictionary filled from empty lists one value per distinct key, in first-assignment order, each the last value assigned to it |
| `Versioning.MountPrefix` | fastapi_versioning/versioning.py:58-59 | the mount prefix fails exactly when the mount template does, with its error, and otherwise is the formatted version plus the custom prefix in length; its exact text and order are stated by `VersioningProperties.MountAt` |
| `Versioning.Label` | fastapi_versioning/versioning.py:60 | the label fails exactly when the label template does, with its error, and otherwise starts with the custom prefix; its exact text is stated by `VersioningProperties.MountAt` |
| `Versioning.Step` | fastapi_versioning/versioning.py:56-87 | one loop turn fails exactly when the prefix or the label cannot be built, the prefix's error first; otherwise both documentation paths lie under the mount prefix; its mount and dictionary are stated by `VersioningProperties.ProcessMount` and `VersioningProperties.MountAt` |
| `Versioning.Process` | fastapi_versioning/versioning.py:54-87 | a successful loop makes one mount per visited bucket; the mounts and the dictionary are stated by `VersioningProperties.ProcessState` and `VersioningProperties.ProcessMount` |
| `Versioning.Build` | fastapi_versioning/versioning.py:43-100 | without routes the result is empty, or the unbound-version failure with `/latest`; a successful run makes one mount per bucket plus `/latest`, which comes last with no docs paths; full behaviour in `VersioningProperties.BuildOutcome`, `MountAt` and `MountContents.LatestMount` |
| `VersioningProperties.ProcessState` | fastapi_versioning/versioning.py:54-87 | the loop makes one mount per bucket; afterwards the dictionary holds all assignments of the visited buckets, in visiting order, as one fresh dictionary filled with them would |
| `VersioningProperties.ProcessMount` | fastapi_versioning/versioning.py:56-87 | mount `i` of the loop is what one loop turn on bucket `i` builds from the dictionary that buckets `0..i-1` left behind; later turns never change an earlier mount |
| `VersioningProperties.ProcessOutcome` | fastapi_versioning/versioning.py:56-60 | the loop fails exactly when a template cannot be filled: the mount template's error first, then the label template's |
| `VersioningProperties.ProcessOk` | fastapi_versioning/versioning.py:56-60 | the loop succeeds exactly when it visits no bucket or both templates can be filled |
| `VersioningProperties.BuildableOk` | fastapi_versioning/versioning.py:55-92 | the routine succeeds exactly when the templates can be filled (or there is no route to fill them for) and, when `/latest` is asked for, some route exists |
| `VersioningProperties.BuildOutcome` | fastapi_versioning/versioning.py:55-92 | without routes the result is empty, or the unbound-version failure when `/latest` is asked for; with routes the mount template error comes first, then the label template error, and otherwise the routine succeeds |
| `VersioningProperties.MountAt` | fastapi_versioning/versioning.py:56-87 | mount `i` has the formatted prefix with the custom prefix after it (before it when inverted), the label `custom_prefix + formatted label`, docs paths under its prefix, and routes from the dictionary after buckets `0..i` |
| `VersioningProperties.DefaultsMount` | fastapi_versioning/versioning.py:28-36 | with every keyword argument at its default the routine always succeeds with one mount per bucket and no `/latest`, and bucket `(major, minor, prefix)` is mounted at `/v<major>_<minor><prefix>` with the label `<prefix><major>.<minor>` |
| `MountContents.LastDefinerSpec` | fastapi_versioning/versioning.py:74-76 | the chosen route answers the path-and-method pair and no later route does |
| `MountContents.EntriesKeys` | fastapi_versioning/versioning.py:67-76 | the keys a list of routes assigns carry the scope, and a path-and-method pair is assigned exactly when some route of the list answers it |
| `MountContents.EntriesLast` | fastapi_versioning/versioning.py:74-76 | the route a list of routes leaves under a path-and-method pair is the last route answering it |
| `MountContents.PlainCumEntries` | fastapi_versioning/versioning.py:73-76 | in plain mode, the assignments of the loop are the assignments of the visited buckets' routes laid end to end |
| `MountContents.MountedRoutesUpTo` | fastapi_versioning/versioning.py:50-56 | mount `i` is fed exactly the routes whose key is at most its own, each as often as it came |
| `MountContents.FreshPlainEntries` | fastapi_versioning/versioning.py:73-78 | a fresh dictionary filled with a list of routes' plain assignments holds one route per answered path-and-method pair, in first-appearance order, each the last route answering it, and every answered pair is present |
| `MountContents.PlainMount` | fastapi_versioning/versioning.py:73-78 | in plain mode mount `i` holds exactly one route per path-and-method pair answered by routes of versions up to its own, in first-appearance order, and that route is the last one answering it; every such path-and-method pair is present |
| `MountContents.PlainMountUpTo` | fastapi_versioning/versioning.py:50-78 | in plain mode the routes of mount `i` answer a path-and-method pair exactly when some input route whose version key is at most the `i`-th key answers it, and so does its key in the de-duplication dictionary |
| `MountContents.InvertedCumEntries` | fastapi_versioning/versioning.py:66-69 | in inverted mode every key is scoped by a mount prefix; `(mp, pm)` is assigned exactly when a visited bucket mounted under `mp` answers `pm`, and it holds the last such route |
| `MountContents.FreshMatching` | fastapi_versioning/versioning.py:70-72 | the entries selected by a custom prefix are one per matching key, in dictionary order, each with its last assigned route; every assigned matching key is selected |
| `MountContents.InvertedMount` | fastapi_versioning/versioning.py:66-72 | in inverted mode mount `i` holds, for every key whose mount prefix starts with its custom prefix, the last route answering that path-and-method pair among the buckets so far mounted there; every such key is present and equal paths under different mount prefixes never collide |
| `MountContents.UnprefixedMountsAll` | fastapi_versioning/versioning.py:70-72 | in inverted mode a bucket with the empty custom prefix mounts every entry of the dictionary |
| `MountContents.LatestMount` | fastapi_versioning/versioning.py:89-100 | `/latest` comes last; at least one bucket exists; it is labelled with the greatest bucket's formatted version without its custom prefix, has no docs paths, and holds the final dictionary; in plain mode it equals the last versioned mount's route set |

## Left out

- `fastapi_versioning/routing.py` is not part of this model. Its route class sets the same two handler attributes the decorator sets, so `Tags.Stamp` covers its effect.
- Construction of the `FastAPI` objects (title, description), `parent_app.mount`, and the `noop` documentation handlers with their names and tags. These are framework calls, recorded only as `Mount` records with their prefix, label, routes and the two documentation paths. The documentation routes a framework application adds to its own router are not modelled either.
- The `cast` to an API route. Every route is taken to be an API route with a handler. A route without a handler, such as a mounted sub-application, makes the source fail on `.endpoint`, and that failure is not modelled.
- The iteration order of a route's method set. `methods` is taken as a given sequence.
- `Template.Format`: conversions (`{major!r}`), format specifications (`{major:02}`), attribute or index access (`{major.real}`, `{a[}]}`) and nested fields in a format specification (`{major:{minor}}`) are not modelled. Python accepts some of these; the model reports them as an unknown field or a malformed template. Positional fields (`{}`, `{0}`) are reported as an unknown field, where Python raises an index error. Python 3.11 and later (and the 3.10.7 and 3.9.14 backports) refuse to convert an integer of more than 4300 decimal digits to text; the model has no such limit, so `Template.FormatOutcomeIndependent` and `Decimal` do not hold for such versions under those Python releases.
- The wording of Python's exception messages. Only the kind of error is modelled.
- `Template.Render`: it carries no contract of its own; `Template.RenderOutcome` states its outcome.
