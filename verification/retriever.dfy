/** The service-context merge of the retriever: for each resolved service it
    derives prefixed environment entries, publishes the service's object tree in
    the shared lookup context under three paths, and finally layers the user's
    mapping results over the merged entries. */
module Retriever {
  import opened Results
  import opened Values
  import Utf8

  datatype GroupVersionKind = GroupVersionKind(group: string, version: string, kind: string)

  /** A resolved unstructured resource: its identity and its whole object tree. */
  datatype Resource = Resource(gvk: GroupVersionKind, name: string, content: Tree)

  /** One bound service: the resource, the fields to flatten into env vars,
      the optional name-prefix override and the optional short id. */
  datatype ServiceContext = ServiceContext(
    service: Resource,
    envVars: Tree,
    namePrefix: Option<string>,
    id: Option<string>)

  /** A user mapping: the entry name and its template text. */
  datatype Mapping = Mapping(name: string, value: string)

  /** Flattens env-var fields under a prefix list into final keys (its source is not modelled). */
  type EnvVarBuilder = (Tree, seq<string>) -> Result<map<string, string>>

  /** Evaluates the mapping templates against the lookup context (its source is not modelled). */
  type MappingsParser = (seq<Mapping>, Tree) -> Result<map<string, string>>

  /** Flat secret data: entry name to raw bytes. */
  type ByteMap = map<string, Utf8.Bytes>

  /** The lookup context built so far and the entries derived so far. */
  datatype Collected = Collected(ctx: Tree, entries: ByteMap)

  /** Replaces every occurrence of one character by another. */
  function ReplaceAll(s: string, from: char, to: char): (r: string)
    ensures |r| == |s|
    ensures forall i :: 0 <= i < |s| ==> r[i] == (if s[i] == from then to else s[i])
    ensures from != to ==> from !in r
    ensures from !in s ==> r == s
  {
    if |s| == 0 then [] else [if s[0] == from then to else s[0]] + ReplaceAll(s[1..], from, to)
  }

  /** The path under which a resource is published verbatim. */
  function RawPath(res: Resource): seq<string> {
    [res.gvk.version, res.gvk.group, res.gvk.kind, res.name]
  }

  /** The path with template-unfriendly characters replaced, so that it can be
      reached with dotted field access: `.` in the group and `-` in the name become `_`. */
  function ServiceIndexPath(name: string, gvk: GroupVersionKind): (r: seq<string>)
    ensures |r| == 4
    ensures r[0] == gvk.version && r[2] == gvk.kind
    ensures '.' !in r[1] && '-' !in r[3]
    ensures |r[1]| == |gvk.group| && |r[3]| == |name|
    ensures forall i :: 0 <= i < |gvk.group| ==> r[1][i] == (if gvk.group[i] == '.' then '_' else gvk.group[i])
    ensures forall i :: 0 <= i < |name| ==> r[3][i] == (if name[i] == '-' then '_' else name[i])
    ensures ('.' !in gvk.group && '-' !in name) <==> r == [gvk.version, gvk.group, gvk.kind, name]
  {
    [gvk.version, ReplaceAll(gvk.group, '.', '_'), gvk.kind, ReplaceAll(name, '-', '_')]
  }

  function SanitizedPath(res: Resource): seq<string> {
    ServiceIndexPath(res.name, res.gvk)
  }

  /** The prefixes the service's env-var keys are built from, in order: the global
      prefix when non-empty, then the service's own prefix when set and non-empty,
      and the kind only when the service has no prefix at all. */
  function NamePrefixes(svc: ServiceContext, globalPrefix: string): (r: seq<string>)
    ensures |r| <= 2
    ensures |r| == (if |globalPrefix| > 0 then 1 else 0) + (if svc.namePrefix == Some("") then 0 else 1)
    ensures |globalPrefix| > 0 ==> r[0] == globalPrefix
    ensures svc.namePrefix.None? ==> r[|r| - 1] == svc.service.gvk.kind
    ensures svc.namePrefix.Some? && |svc.namePrefix.value| > 0 ==> r[|r| - 1] == svc.namePrefix.value
    ensures forall i :: 0 <= i < |r| ==> |r[i]| > 0 || (i == |r| - 1 && svc.namePrefix.None?)
  {
    var global := if |globalPrefix| > 0 then [globalPrefix] else [];
    var own := if svc.namePrefix.Some? && |svc.namePrefix.value| > 0 then [svc.namePrefix.value] else [];
    var kind := if svc.namePrefix.None? then [svc.service.gvk.kind] else [];
    global + own + kind
  }

  /** The env vars of one service: the builder applied to the service's env-var
      template with the prefixes `NamePrefixes` chooses. */
  function BuildServiceEnvVars(svc: ServiceContext, globalPrefix: string, build: EnvVarBuilder): Result<map<string, string>>
  {
    build(svc.envVars, NamePrefixes(svc, globalPrefix))
  }

  /** `bytes` holds exactly the keys of `strs`, each value being the bytes of the same string. */
  predicate Encodes(bytes: ByteMap, strs: map<string, string>) {
    && bytes.Keys == strs.Keys
    && forall k :: k in bytes ==> Utf8.Decode(bytes[k]) == Some(strs[k])
  }

  /** Go's `[]byte(v)` applied to every value of a string map. */
  function EncodeEntries(strs: map<string, string>): (r: ByteMap)
    ensures Encodes(r, strs)
  {
    Utf8.DecodeEncodeAll();
    map k | k in strs :: Utf8.Encode(strs[k])
  }

  /** Processes one service against the lookup context built so far. */
  function ProcessServiceContext(svc: ServiceContext, ctx: Tree, globalPrefix: string, build: EnvVarBuilder): (r: Result<Collected>)
    ensures BuildServiceEnvVars(svc, globalPrefix, build).Err? ==>
              r == Err(BuildServiceEnvVars(svc, globalPrefix, build).error)
    ensures r.Ok? ==> BuildServiceEnvVars(svc, globalPrefix, build).Ok?
    ensures r.Ok? ==> Encodes(r.value.entries, BuildServiceEnvVars(svc, globalPrefix, build).value)
  {
    var vars :- BuildServiceEnvVars(svc, globalPrefix, build);
    var obj := Object(svc.service.content);
    var withRaw :- SetNested(ctx, obj, RawPath(svc.service));
    var withSanitized :- SetNested(withRaw, obj, SanitizedPath(svc.service));
    // a one-segment write has no intermediate map to trip over, so it cannot fail
    var withId := if svc.id.Some? then SetNested(withSanitized, obj, [svc.id.value]).value else withSanitized;
    Ok(Collected(withId, EncodeEntries(vars)))
  }

  /** Every service's env vars build without error. */
  predicate AllBuild(globalPrefix: string, svcs: seq<ServiceContext>, build: EnvVarBuilder) {
    forall i :: 0 <= i < |svcs| ==> BuildServiceEnvVars(svcs[i], globalPrefix, build).Ok?
  }

  /** Processes the services in list order against one shared lookup context;
      the first failure aborts, and a later service's entry replaces an earlier one's. */
  function MergeServices(globalPrefix: string, svcs: seq<ServiceContext>, build: EnvVarBuilder): (r: Result<Collected>)
    ensures r.Ok? ==> AllBuild(globalPrefix, svcs, build)
    decreases |svcs|
  {
    if |svcs| == 0 then
      Ok(Collected(map[], map[]))
    else
      var last := |svcs| - 1;
      var before :- MergeServices(globalPrefix, svcs[..last], build);
      var out :- ProcessServiceContext(svcs[last], before.ctx, globalPrefix, build);
      assert AllBuild(globalPrefix, svcs, build) by {
        forall i | 0 <= i < |svcs|
          ensures BuildServiceEnvVars(svcs[i], globalPrefix, build).Ok?
        {
          if i < last {
            assert svcs[..last][i] == svcs[i];
            assert BuildServiceEnvVars(svcs[..last][i], globalPrefix, build).Ok?;
          } else {
            assert i == last;
          }
        }
      }
      Ok(Collected(out.ctx, before.entries + out.entries))
  }

  /** `out` holds the derived and the mapped keys; a mapped key carries the mapping's
      string, any other key keeps its derived bytes. */
  predicate Overlaid(derived: ByteMap, mapped: map<string, string>, out: ByteMap) {
    && out.Keys == derived.Keys + mapped.Keys
    && (forall k :: k in mapped ==> Utf8.Decode(out[k]) == Some(mapped[k]))
    && (forall k :: k in derived && k !in mapped ==> out[k] == derived[k])
  }

  /** The secret data for a binding: the merged service entries with the mapping
      results, evaluated once against the complete lookup context, layered on top. */
  function ProcessServiceContexts(
    globalPrefix: string,
    svcs: seq<ServiceContext>,
    mappings: seq<Mapping>,
    build: EnvVarBuilder,
    parse: MappingsParser
  ): (r: Result<ByteMap>)
    ensures MergeServices(globalPrefix, svcs, build).Err? ==>
              r == Err(MergeServices(globalPrefix, svcs, build).error)
    ensures MergeServices(globalPrefix, svcs, build).Ok? ==>
              (r.Err? <==> parse(mappings, MergeServices(globalPrefix, svcs, build).value.ctx).Err?)
    ensures r.Ok? ==>
              && MergeServices(globalPrefix, svcs, build).Ok?
              && parse(mappings, MergeServices(globalPrefix, svcs, build).value.ctx).Ok?
              && Overlaid(MergeServices(globalPrefix, svcs, build).value.entries,
                          parse(mappings, MergeServices(globalPrefix, svcs, build).value.ctx).value,
                          r.value)
  {
    var merged :- MergeServices(globalPrefix, svcs, build);
    var mapped :- parse(mappings, merged.ctx);
    Ok(merged.entries + EncodeEntries(mapped))
  }
}
