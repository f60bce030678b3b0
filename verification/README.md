# Service-context merge of the service binding retriever

This project models, in Dafny, the part of the service binding operator's retriever
that turns an ordered list of resolved service resources into the flat data of a
binding secret (`controllers/retriever.go`). For each service it:

1. chooses the name prefixes its environment variables are flattened under
   (global prefix, then the service's own `namePrefix`, then the kind only when no
   `namePrefix` is given) and asks the env-var builder for the flat entries;
2. publishes the service's whole object tree in one shared nested lookup context
   under its raw path `[version, group, kind, name]`, its sanitized path (`.` in the
   group and `-` in the name replaced by `_`) and, when set, its top-level `id`;
3. merges the per-service entries in list order, later services winning, and layers
   the results of the user's mapping templates, evaluated once against the finished
   context, on top.

Any failure (env-var build, a nested write that meets a value that is neither a map
nor null, template evaluation) aborts the whole merge with no result. A null met on
the way counts as missing and is replaced by a new map.

Modules:

- `Results` (`results.dfy`): `Option`, `Result` and the `Error` kinds.
- `Utf8` (`utf8.dfy`): Go's `[]byte(s)` conversion as UTF-8 encoding, with a
  decoder and the round-trip lemma that shows the conversion loses nothing.
- `Values` (`values.dfy`): the unstructured object tree (`Value`, `Tree`), path
  reads (`Walk`, `Get`) and `SetNested`, the behaviour of
  `unstructured.SetNestedField` that the retriever relies on.
- `Retriever` (`retriever.dfy`): the operations of the retriever.
- `RetrieverProperties` (`retriever_properties.dfy`): properties relating several
  calls: success conditions, what the context holds afterwards, which entry wins, and
  the custom-mapping scenario of the binder tests.

The env-var builder (`envvars.Build`) and the mapping template parser
(`newMappingsParser(...).Parse()`) are not modelled. They are function parameters
(`EnvVarBuilder`, `MappingsParser`) that return `Result<map<string, string>>`, and
nothing is assumed about them.

Two behaviours of the code are worth knowing:

- Context writes are not purely additive. A service whose `id` equals some version
  replaces the whole subtree under that version, which can include earlier services'
  raw and sanitized paths. `ProcessServiceContextPublishes`, `ServicePathsVisible` and
  `LastIdWriteWins` state conditions under which a path survives.
- Distinct identities can share a sanitized path. `db-1` and `db_1` of one kind do
  (`SanitizedPathsCanCollide`), and the later service replaces the earlier one there
  without an error. The sanitized path is injective for groups and names without `_`
  (`SanitizedPathInjective`). Every API group has no `_`, and neither does every
  DNS-subdomain object name (the rule for custom resources, ConfigMaps and Secrets).

## Model

| member | source | states |
|---|---|---|
| Values.SetNested | controllers/retriever.go:67-99 | On success the written path reads back as the written value and only the first segment can be a new top-level key; a failure names a proper prefix of the path that holds a value that is neither a map nor null |
| Values.SetNestedOkIff | controllers/retriever.go:67-86 | A nested write succeeds exactly when no proper prefix of its path holds a value that is neither a map nor null; missing and null intermediates become new maps |
| Values.SetNestedThroughNull | controllers/retriever.go:67-69 | A null intermediate is replaced by a new map holding the written value, not reported as an error |
| Values.SetNestedFrame | controllers/retriever.go:67-100 | A nested write leaves every path that diverges from the written one unchanged |
| Values.SetNestedBeneath | controllers/retriever.go:67-69 | Below the written path the context reads exactly as the written object, so the service's fields can be reached through it |
| Values.SetNestedPrefixIsMap | controllers/retriever.go:67-69 | After a write every proper prefix of its path holds a map |
| Utf8.Encode | controllers/retriever.go:102-105 | `[]byte(v)`: at least one byte per character; `DecodeEncode` proves it loses nothing and `DecodeCanonical` that it is the only byte string decoding to `v` |
| Utf8.DecodeEncode | controllers/retriever.go:102-105 | Decoding the bytes `[]byte(v)` produces gives back `v` |
| Utf8.DecodeCanonical | controllers/retriever.go:102-105 | The decoder accepts only the shortest form, so a byte string that decodes to `v` is exactly `[]byte(v)` |
| Utf8.EncodeInjective | controllers/retriever.go:102-105 | Distinct strings become distinct byte values |
| Utf8.EncodeAscii | controllers/retriever.go:137-139 | An ASCII string becomes one byte per character, each its character code |
| Retriever.ReplaceAll | controllers/retriever.go:28-30 | Same length; each occurrence of the replaced character becomes the replacement and every other character is kept; afterwards the replaced character is absent; a string without it is unchanged |
| Retriever.ServiceIndexPath | controllers/retriever.go:25-32 | Four segments: version and kind copied; in the group slot each `.` becomes `_` and every other character is kept, and likewise each `-` in the name slot, so neither slot holds the replaced character; equals the raw path exactly when the group has no `.` and the name no `-` |
| Retriever.NamePrefixes | controllers/retriever.go:35-46 | At most two prefixes: the global prefix first when non-empty, then a non-empty own prefix; the kind only when no own prefix is given, so an explicitly empty one suppresses the kind |
| RetrieverProperties.BuildServiceEnvVarsPrefixes | controllers/retriever.go:35-48 | `buildServiceEnvVars` hands the builder exactly: the kind; global prefix and kind; nothing; the global prefix; the own prefix; global and own prefix, in the six combinations of empty or non-empty global prefix and unset, empty or non-empty own prefix |
| Retriever.EncodeEntries | controllers/retriever.go:102-105 | Same keys as the builder's map, each value decoding to the same string |
| RetrieverProperties.EncodesExactly | controllers/retriever.go:102-105 | A value that decodes to the builder's string is exactly the bytes `[]byte(v)` gives |
| Retriever.ProcessServiceContext | controllers/retriever.go:50-108 | A builder error is returned unchanged; on success the builder succeeded and the result holds exactly its keys, each value decoding to the same string and so, by `EncodesExactly`, being its bytes |
| Retriever.MergeServices | controllers/retriever.go:116-127 | A successful merge means every service's env vars built |
| Retriever.ProcessServiceContexts | controllers/retriever.go:111-142 | A merge error is returned unchanged; after a merge it fails exactly when the parser fails on the finished context; on success the keys are the union of derived and mapped keys, mapped keys carry the mapping string and other keys keep their derived bytes |
| RetrieverProperties.ReplaceAllInjective | controllers/retriever.go:28-30 | Strings free of the replacement character that sanitize alike are equal |
| RetrieverProperties.SanitizedPathInjective | controllers/retriever.go:25-32 | For groups and names without `_`, equal sanitized paths imply equal raw paths |
| RetrieverProperties.SanitizedPathsCanCollide | controllers/retriever.go:25-32 | `db-1` and `db_1` of one kind have different raw paths but the same sanitized path |
| RetrieverProperties.ProcessServiceContextOkIff | controllers/retriever.go:50-100 | A service is processed exactly when its env vars build and its raw and sanitized paths are settable in the context it meets (no proper prefix holds a value that is neither a map nor null); the id write never fails |
| RetrieverProperties.ProcessServiceContextPublishes | controllers/retriever.go:60-100 | Afterwards the id, when set, reads as the service object, and so do the raw and sanitized paths unless the service's own id is its version |
| RetrieverProperties.ProcessServiceContextFrame | controllers/retriever.go:67-100 | Paths apart from the service's three paths are unchanged |
| RetrieverProperties.MergePrefixOk | controllers/retriever.go:119-123 | A successful merge succeeded on every prefix of the service list |
| RetrieverProperties.ServiceErrorAborts | controllers/retriever.go:119-123 | A service that fails in the context left by the earlier services aborts the merge with that service's own error |
| RetrieverProperties.BuildFailureAborts | controllers/retriever.go:119-123 | An env-var build failure of any service, wherever it stands, aborts the merge and the final result |
| RetrieverProperties.DerivedKeyMerged | controllers/retriever.go:124-126 | Every key any service derives is among the merged entries |
| RetrieverProperties.MergedKeyDerived | controllers/retriever.go:124-126 | Every merged key is derived by some service |
| RetrieverProperties.MergedKeys | controllers/retriever.go:119-127 | The merged keys are exactly the keys some service derives |
| RetrieverProperties.LaterServiceWins | controllers/retriever.go:119-127 | When several services derive a key, the merged bytes decode to the value of the last of them in list order |
| RetrieverProperties.LaterWritesApartKeep | controllers/retriever.go:119-127 | A context path that every later service leaves alone keeps its value to the end of the merge |
| RetrieverProperties.ServicePathsVisible | controllers/retriever.go:116-127 | The finished context reads service `i`'s object at its raw and sanitized paths, unless a later service writes that path or uses its version as an id, or `i`'s own id is its version |
| RetrieverProperties.LastIdWriteWins | controllers/retriever.go:88-100 | On a shared id the top-level key holds the object of the last service with that id, provided no later service has that id as its version |
| RetrieverProperties.SecretKeys | controllers/retriever.go:129-141 | The result's keys are exactly the mapping keys and the keys some service derives |
| RetrieverProperties.SecretDerivedValue | controllers/retriever.go:124-141 | A key no mapping names decodes to the value derived by the last service that derives it |
| RetrieverProperties.MappedValueInSecret | controllers/retriever.go:137-139 | A mapping result is in the secret as the bytes of its string, overriding any derived entry |
| RetrieverProperties.SingleServiceFieldLookup | controllers/retriever.go:63-72 | With one service whose `id` is not its own version, every field of its object reads below its raw path, as the `index` template form expects |
| RetrieverProperties.Db1ContextLookup | controllers/servicebinder_test.go:269-272 | For the `db1` Database the context reads `db1` at the path the `MY_DB_NAME` template indexes |
| RetrieverProperties.CustomMappingExample | controllers/servicebinder_test.go:463-501 | A parser that yields `db1` there makes the secret hold `MY_DB_NAME` = bytes `0x64 0x62 0x31` |

## Left out

- `envvars.Build`: key upper-casing and path flattening are not modelled; the builder is a parameter and no property of it is assumed.
- `newMappingsParser` and Go `text/template` evaluation are not modelled; the parser is a parameter that receives the mappings and the finished context.
- The `v.(string)` assertion on mapping results: results are taken to be strings, so the panic path is not modelled.
- The dynamic client, the logger (including the error log on a parse failure), the `retriever` struct and `NewRetriever` are I/O and plumbing.
- Deep copying in `unstructured.SetNestedField` is irrelevant for immutable values. Its panic on an empty field list is excluded by a precondition, since the retriever always passes one or four segments.
- On failure the Go code may leave the shared context partly written. That context is local to `ProcessServiceContexts` and discarded with the error, so the model does not expose it.
- Go strings are byte strings. The model uses Unicode strings, so byte strings that are not valid UTF-8 are not represented. Replacing the ASCII characters `.` and `-` acts the same on characters as on UTF-8 bytes.
- A resource's group, version, kind and name are kept beside its object tree. The model does not parse them out of `apiVersion`, `kind` and `metadata.name`.
- Floating-point numbers in object trees are not modelled. The core tells only maps and nulls apart from other values, and never inspects a scalar's content.
- The binder's readiness-condition state machine, `ensureDefaults` and `getContainersPath` are not part of this model. Their implementations are not among the modelled files.
