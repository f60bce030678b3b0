/** Properties of the service-context merge that relate several calls or hold for
    all inputs: when processing succeeds, what the lookup context then holds, which
    derived entry survives, and how the mapping results override them. */
module RetrieverProperties {
  import opened Results
  import opened Values
  import Utf8
  import opened Retriever

  // ---------------------------------------------------------------------------
  // Lookup paths

  /** Replacing a character that was absent loses nothing: distinct strings free
      of the replacement character stay distinct. */
  lemma ReplaceAllInjective(s: string, t: string, from: char, to: char)
    requires to !in s && to !in t
    requires ReplaceAll(s, from, to) == ReplaceAll(t, from, to)
    ensures s == t
  {
    var rs := ReplaceAll(s, from, to);
    forall i | 0 <= i < |s|
      ensures s[i] == t[i]
    {
      assert rs[i] == (if s[i] == from then to else s[i]);
      assert rs[i] == (if t[i] == from then to else t[i]);
    }
  }

  /** The prefixes the env-var builder receives, in each of the six combinations of
      global prefix (empty or not) and service prefix (unset, empty or non-empty). */
  lemma BuildServiceEnvVarsPrefixes(svc: ServiceContext, globalPrefix: string, build: EnvVarBuilder)
    ensures var r := BuildServiceEnvVars(svc, globalPrefix, build);
            |globalPrefix| == 0 && svc.namePrefix.None? ==> r == build(svc.envVars, [svc.service.gvk.kind])
    ensures var r := BuildServiceEnvVars(svc, globalPrefix, build);
            |globalPrefix| > 0 && svc.namePrefix.None? ==> r == build(svc.envVars, [globalPrefix, svc.service.gvk.kind])
    ensures var r := BuildServiceEnvVars(svc, globalPrefix, build);
            |globalPrefix| == 0 && svc.namePrefix == Some("") ==> r == build(svc.envVars, [])
    ensures var r := BuildServiceEnvVars(svc, globalPrefix, build);
            |globalPrefix| > 0 && svc.namePrefix == Some("") ==> r == build(svc.envVars, [globalPrefix])
    ensures var r := BuildServiceEnvVars(svc, globalPrefix, build);
            |globalPrefix| == 0 && svc.namePrefix.Some? && |svc.namePrefix.value| > 0 ==>
              r == build(svc.envVars, [svc.namePrefix.value])
    ensures var r := BuildServiceEnvVars(svc, globalPrefix, build);
            |globalPrefix| > 0 && svc.namePrefix.Some? && |svc.namePrefix.value| > 0 ==>
              r == build(svc.envVars, [globalPrefix, svc.namePrefix.value])
  {
    var p := NamePrefixes(svc, globalPrefix);
    if |globalPrefix| == 0 && svc.namePrefix.None? {
      assert p == [svc.service.gvk.kind];
    } else if |globalPrefix| > 0 && svc.namePrefix.None? {
      assert p == [globalPrefix, svc.service.gvk.kind];
    } else if |globalPrefix| == 0 && svc.namePrefix == Some("") {
      assert p == [];
    } else if |globalPrefix| > 0 && svc.namePrefix == Some("") {
      assert p == [globalPrefix];
    } else if |globalPrefix| == 0 {
      assert p == [svc.namePrefix.value];
    } else {
      assert p == [globalPrefix, svc.namePrefix.value];
    }
  }

  /** The byte values are pinned by their decoding: each is exactly the encoding of
      its string, as `[]byte(v)` produces. */
  lemma EncodesExactly(bytes: ByteMap, strs: map<string, string>, k: string)
    requires Encodes(bytes, strs) && k in bytes
    ensures k in strs && bytes[k] == Utf8.Encode(strs[k])
  {
    Utf8.DecodeCanonical(bytes[k], strs[k]);
  }

  /** Resources whose group and name contain no `_` (true of every API group and of
      every DNS-subdomain object name, the rule for custom resources, ConfigMaps and
      Secrets) share a sanitized path only when they
      share the raw path. */
  lemma SanitizedPathInjective(a: Resource, b: Resource)
    requires '_' !in a.gvk.group && '_' !in a.name
    requires '_' !in b.gvk.group && '_' !in b.name
    requires SanitizedPath(a) == SanitizedPath(b)
    ensures RawPath(a) == RawPath(b)
  {
    ReplaceAllInjective(a.gvk.group, b.gvk.group, '.', '_');
    ReplaceAllInjective(a.name, b.name, '-', '_');
  }

  /** Without that restriction the sanitized path is not injective: `db-1` and
      `db_1` of the same kind share it, so the later one replaces the earlier. */
  lemma SanitizedPathsCanCollide(gvk: GroupVersionKind, content1: Tree, content2: Tree)
    ensures var a := Resource(gvk, "db-1", content1);
            var b := Resource(gvk, "db_1", content2);
            RawPath(a) != RawPath(b) && SanitizedPath(a) == SanitizedPath(b)
  {
    var a := Resource(gvk, "db-1", content1);
    var b := Resource(gvk, "db_1", content2);
    assert RawPath(a)[3] != RawPath(b)[3];
    assert ReplaceAll("db-1", '-', '_') == ReplaceAll("db_1", '-', '_');
  }

  // ---------------------------------------------------------------------------
  // One service

  /** Two paths of the same length are equal or apart. */
  lemma SameLengthEqualOrApart(p: seq<string>, q: seq<string>)
    requires |p| == |q|
    ensures p == q || Apart(p, q)
  {
    if p != q {
      var j :| 0 <= j < |p| && p[j] != q[j];
    }
  }

  /** A prefix of `q` that is not a prefix of `p` is apart from `p`. */
  lemma DivergingPrefixApart(p: seq<string>, q: seq<string>, i: nat)
    requires i <= |p| && i <= |q|
    requires p[..i] != q[..i]
    ensures Apart(p, q[..i])
  {
    var j :| 0 <= j < i && p[..i][j] != q[..i][j];
    assert p[j] != q[..i][j];
  }

  /** Writing the raw path first never makes the sanitized write fail where it
      would not have failed on its own. */
  lemma SettableAfterWrite(t: Tree, v: Value, p: seq<string>, q: seq<string>)
    requires |p| > 0 && |q| > 0 && |q| <= |p|
    requires SetNested(t, v, p).Ok?
    ensures Settable(SetNested(t, v, p).value, q) <==> Settable(t, q)
  {
    var r := SetNested(t, v, p).value;
    SetNestedOkIff(t, v, p);
    forall i | 0 < i < |q|
      ensures HoldsNonMap(r, q[..i]) <==> HoldsNonMap(t, q[..i])
    {
      if p[..i] == q[..i] {
        SetNestedPrefixIsMap(t, v, p, i);
      } else {
        DivergingPrefixApart(p, q, i);
        SetNestedFrame(t, v, p, q[..i]);
      }
    }
  }

  /** A service is processed exactly when its env vars build and both of its
      four-segment paths are settable in the context it meets; the id write never fails. */
  lemma ProcessServiceContextOkIff(svc: ServiceContext, ctx: Tree, globalPrefix: string, build: EnvVarBuilder)
    ensures ProcessServiceContext(svc, ctx, globalPrefix, build).Ok? <==>
              && BuildServiceEnvVars(svc, globalPrefix, build).Ok?
              && Settable(ctx, RawPath(svc.service))
              && Settable(ctx, SanitizedPath(svc.service))
  {
    var obj := Object(svc.service.content);
    var raw := RawPath(svc.service);
    var sanitized := SanitizedPath(svc.service);
    SetNestedOkIff(ctx, obj, raw);
    if SetNested(ctx, obj, raw).Ok? {
      var withRaw := SetNested(ctx, obj, raw).value;
      SetNestedOkIff(withRaw, obj, sanitized);
      SettableAfterWrite(ctx, obj, raw, sanitized);
    }
  }

  /** After a service is processed, its id (when set) reads as the service's object,
      and so do its raw and sanitized paths unless its own id is its version. */
  lemma ProcessServiceContextPublishes(svc: ServiceContext, ctx: Tree, globalPrefix: string, build: EnvVarBuilder)
    requires ProcessServiceContext(svc, ctx, globalPrefix, build).Ok?
    ensures var out := ProcessServiceContext(svc, ctx, globalPrefix, build).value.ctx;
            && (svc.id.Some? ==> Get(out, [svc.id.value]) == Some(Object(svc.service.content)))
            && (svc.id != Some(svc.service.gvk.version) ==>
                  && Get(out, RawPath(svc.service)) == Some(Object(svc.service.content))
                  && Get(out, SanitizedPath(svc.service)) == Some(Object(svc.service.content)))
  {
    var obj := Object(svc.service.content);
    var raw := RawPath(svc.service);
    var sanitized := SanitizedPath(svc.service);
    var withRaw := SetNested(ctx, obj, raw).value;
    var withSanitized := SetNested(withRaw, obj, sanitized).value;
    SameLengthEqualOrApart(sanitized, raw);
    if sanitized != raw {
      SetNestedFrame(withRaw, obj, sanitized, raw);
    }
    if svc.id.Some? && svc.id.value != svc.service.gvk.version {
      var idPath := [svc.id.value];
      assert idPath[0] != raw[0] && idPath[0] != sanitized[0];
      SetNestedFrame(withSanitized, obj, idPath, raw);
      SetNestedFrame(withSanitized, obj, idPath, sanitized);
    }
  }

  /** The paths a service's writes cannot disturb. */
  predicate WritesApart(svc: ServiceContext, q: seq<string>) {
    && Apart(RawPath(svc.service), q)
    && Apart(SanitizedPath(svc.service), q)
    && (svc.id.Some? ==> Apart([svc.id.value], q))
  }

  /** Processing a service changes nothing apart from its own three paths. */
  lemma ProcessServiceContextFrame(svc: ServiceContext, ctx: Tree, globalPrefix: string, build: EnvVarBuilder, q: seq<string>)
    requires ProcessServiceContext(svc, ctx, globalPrefix, build).Ok?
    requires WritesApart(svc, q)
    ensures Get(ProcessServiceContext(svc, ctx, globalPrefix, build).value.ctx, q) == Get(ctx, q)
  {
    var obj := Object(svc.service.content);
    var withRaw := SetNested(ctx, obj, RawPath(svc.service)).value;
    var withSanitized := SetNested(withRaw, obj, SanitizedPath(svc.service)).value;
    SetNestedFrame(ctx, obj, RawPath(svc.service), q);
    SetNestedFrame(withRaw, obj, SanitizedPath(svc.service), q);
    if svc.id.Some? {
      SetNestedFrame(withSanitized, obj, [svc.id.value], q);
    }
  }

  // ---------------------------------------------------------------------------
  // The ordered merge

  /** How a merge of at least one service decomposes into the merge of all but the
      last and the processing of the last. */
  lemma MergeStep(globalPrefix: string, svcs: seq<ServiceContext>, build: EnvVarBuilder)
    requires |svcs| > 0
    ensures var before := MergeServices(globalPrefix, svcs[..|svcs| - 1], build);
            MergeServices(globalPrefix, svcs, build).Ok? <==>
              before.Ok? && ProcessServiceContext(svcs[|svcs| - 1], before.value.ctx, globalPrefix, build).Ok?
    ensures var before := MergeServices(globalPrefix, svcs[..|svcs| - 1], build);
            MergeServices(globalPrefix, svcs, build).Ok? ==>
              var out := ProcessServiceContext(svcs[|svcs| - 1], before.value.ctx, globalPrefix, build).value;
              MergeServices(globalPrefix, svcs, build).value == Collected(out.ctx, before.value.entries + out.entries)
    ensures var before := MergeServices(globalPrefix, svcs[..|svcs| - 1], build);
            before.Err? ==> MergeServices(globalPrefix, svcs, build) == Err(before.error)
    ensures var before := MergeServices(globalPrefix, svcs[..|svcs| - 1], build);
            before.Ok? && ProcessServiceContext(svcs[|svcs| - 1], before.value.ctx, globalPrefix, build).Err? ==>
              MergeServices(globalPrefix, svcs, build)
              == Err(ProcessServiceContext(svcs[|svcs| - 1], before.value.ctx, globalPrefix, build).error)
  {
  }

  /** A successful merge succeeded on every prefix of the service list. */
  lemma {:induction false} MergePrefixOk(globalPrefix: string, svcs: seq<ServiceContext>, build: EnvVarBuilder, n: nat)
    requires n <= |svcs|
    requires MergeServices(globalPrefix, svcs, build).Ok?
    ensures MergeServices(globalPrefix, svcs[..n], build).Ok?
    decreases |svcs|
  {
    if n < |svcs| {
      var last := |svcs| - 1;
      var init := svcs[..last];
      MergeStep(globalPrefix, svcs, build);
      assert MergeServices(globalPrefix, init, build).Ok?;
      MergePrefixOk(globalPrefix, init, build, n);
      assert init[..n] == svcs[..n];
    } else {
      assert svcs[..n] == svcs;
    }
  }

  /** A service that fails, in the context left by the services before it, aborts the
      whole merge with that service's own error. */
  lemma {:induction false} ServiceErrorAborts(globalPrefix: string, svcs: seq<ServiceContext>, build: EnvVarBuilder, i: nat)
    requires i < |svcs|
    requires MergeServices(globalPrefix, svcs[..i], build).Ok?
    requires ProcessServiceContext(svcs[i], MergeServices(globalPrefix, svcs[..i], build).value.ctx, globalPrefix, build).Err?
    ensures MergeServices(globalPrefix, svcs, build)
         == Err(ProcessServiceContext(svcs[i], MergeServices(globalPrefix, svcs[..i], build).value.ctx, globalPrefix, build).error)
    decreases |svcs|
  {
    var last := |svcs| - 1;
    var init := svcs[..last];
    var e := ProcessServiceContext(svcs[i], MergeServices(globalPrefix, svcs[..i], build).value.ctx, globalPrefix, build).error;
    MergeStep(globalPrefix, svcs, build);
    if i < last {
      assert init[..i] == svcs[..i];
      assert init[i] == svcs[i];
      ServiceErrorAborts(globalPrefix, init, build, i);
      assert MergeServices(globalPrefix, init, build) == Err(e);
    } else {
      assert i == last;
      assert init == svcs[..i];
      assert MergeServices(globalPrefix, init, build).Ok?;
      assert ProcessServiceContext(svcs[last], MergeServices(globalPrefix, init, build).value.ctx, globalPrefix, build) == Err(e);
    }
  }

  /** An env-var build failure of any service aborts the merge and the whole result,
      wherever the service stands in the list. */
  lemma BuildFailureAborts(
    globalPrefix: string, svcs: seq<ServiceContext>, mappings: seq<Mapping>,
    build: EnvVarBuilder, parse: MappingsParser, i: nat)
    requires i < |svcs|
    requires BuildServiceEnvVars(svcs[i], globalPrefix, build).Err?
    ensures MergeServices(globalPrefix, svcs, build).Err?
    ensures ProcessServiceContexts(globalPrefix, svcs, mappings, build, parse).Err?
  {
  }

  /** The service that contributes `k`. */
  predicate Derives(globalPrefix: string, svc: ServiceContext, build: EnvVarBuilder, k: string) {
    BuildServiceEnvVars(svc, globalPrefix, build).Ok? && k in BuildServiceEnvVars(svc, globalPrefix, build).value
  }

  /** Some service of the list derives `k`. */
  predicate SomeServiceDerives(globalPrefix: string, svcs: seq<ServiceContext>, build: EnvVarBuilder, k: string) {
    exists i :: 0 <= i < |svcs| && Derives(globalPrefix, svcs[i], build, k)
  }

  /** Every key a service derives is among the merged entries. */
  lemma {:induction false} DerivedKeyMerged(globalPrefix: string, svcs: seq<ServiceContext>, build: EnvVarBuilder, i: nat, k: string)
    requires MergeServices(globalPrefix, svcs, build).Ok?
    requires i < |svcs| && Derives(globalPrefix, svcs[i], build, k)
    ensures k in MergeServices(globalPrefix, svcs, build).value.entries
    decreases |svcs|
  {
    var last := |svcs| - 1;
    MergeStep(globalPrefix, svcs, build);
    var before := MergeServices(globalPrefix, svcs[..last], build).value;
    var out := ProcessServiceContext(svcs[last], before.ctx, globalPrefix, build).value;
    assert MergeServices(globalPrefix, svcs, build).value.entries == before.entries + out.entries;
    if i < last {
      assert svcs[..last][i] == svcs[i];
      DerivedKeyMerged(globalPrefix, svcs[..last], build, i, k);
      assert k in before.entries;
    } else {
      assert i == last;
      assert k in out.entries;
    }
  }

  /** Every merged key is derived by some service. */
  lemma {:induction false} MergedKeyDerived(globalPrefix: string, svcs: seq<ServiceContext>, build: EnvVarBuilder, k: string)
    requires MergeServices(globalPrefix, svcs, build).Ok?
    requires k in MergeServices(globalPrefix, svcs, build).value.entries
    ensures SomeServiceDerives(globalPrefix, svcs, build, k)
    decreases |svcs|
  {
    var last := |svcs| - 1;
    MergeStep(globalPrefix, svcs, build);
    var before := MergeServices(globalPrefix, svcs[..last], build).value;
    var out := ProcessServiceContext(svcs[last], before.ctx, globalPrefix, build).value;
    if k in out.entries {
      assert Derives(globalPrefix, svcs[last], build, k);
    } else {
      MergedKeyDerived(globalPrefix, svcs[..last], build, k);
      var i :| 0 <= i < last && Derives(globalPrefix, svcs[..last][i], build, k);
      assert svcs[..last][i] == svcs[i];
    }
  }

  /** The merged entries hold exactly the keys some service derives. */
  lemma MergedKeys(globalPrefix: string, svcs: seq<ServiceContext>, build: EnvVarBuilder, k: string)
    requires MergeServices(globalPrefix, svcs, build).Ok?
    ensures k in MergeServices(globalPrefix, svcs, build).value.entries <==> SomeServiceDerives(globalPrefix, svcs, build, k)
  {
    if k in MergeServices(globalPrefix, svcs, build).value.entries {
      MergedKeyDerived(globalPrefix, svcs, build, k);
    }
    if SomeServiceDerives(globalPrefix, svcs, build, k) {
      var i :| 0 <= i < |svcs| && Derives(globalPrefix, svcs[i], build, k);
      DerivedKeyMerged(globalPrefix, svcs, build, i, k);
    }
  }

  /** When several services derive the same key, the merged entry holds the bytes
      of the value derived by the last of them in list order. */
  lemma {:induction false} LaterServiceWins(globalPrefix: string, svcs: seq<ServiceContext>, build: EnvVarBuilder, i: nat, k: string)
    requires MergeServices(globalPrefix, svcs, build).Ok?
    requires i < |svcs| && Derives(globalPrefix, svcs[i], build, k)
    requires forall j :: i < j < |svcs| ==> !Derives(globalPrefix, svcs[j], build, k)
    ensures k in MergeServices(globalPrefix, svcs, build).value.entries
    ensures Utf8.Decode(MergeServices(globalPrefix, svcs, build).value.entries[k])
         == Some(BuildServiceEnvVars(svcs[i], globalPrefix, build).value[k])
    decreases |svcs|
  {
    var last := |svcs| - 1;
    MergeStep(globalPrefix, svcs, build);
    if i < last {
      assert svcs[..last][i] == svcs[i];
      forall j | i < j < last
        ensures !Derives(globalPrefix, svcs[..last][j], build, k)
      {
        assert svcs[..last][j] == svcs[j];
      }
      LaterServiceWins(globalPrefix, svcs[..last], build, i, k);
    }
  }

  /** A path that every later service leaves alone keeps what it read after service `n - 1`. */
  lemma {:induction false} LaterWritesApartKeep(
    globalPrefix: string, svcs: seq<ServiceContext>, build: EnvVarBuilder, n: nat, q: seq<string>, w: Value)
    requires n <= |svcs|
    requires MergeServices(globalPrefix, svcs, build).Ok?
    requires MergeServices(globalPrefix, svcs[..n], build).Ok?
    requires Get(MergeServices(globalPrefix, svcs[..n], build).value.ctx, q) == Some(w)
    requires forall j :: n <= j < |svcs| ==> WritesApart(svcs[j], q)
    ensures Get(MergeServices(globalPrefix, svcs, build).value.ctx, q) == Some(w)
    decreases |svcs|
  {
    if n == |svcs| {
      assert svcs[..n] == svcs;
    } else {
      var last := |svcs| - 1;
      var init := svcs[..last];
      MergePrefixOk(globalPrefix, svcs, build, last);
      assert MergeServices(globalPrefix, init, build).Ok?;
      assert init[..n] == svcs[..n];
      assert MergeServices(globalPrefix, init[..n], build) == MergeServices(globalPrefix, svcs[..n], build);
      forall j | n <= j < last
        ensures WritesApart(init[j], q)
      {
        assert init[j] == svcs[j];
      }
      LaterWritesApartKeep(globalPrefix, init, build, n, q, w);
      assert Get(MergeServices(globalPrefix, init, build).value.ctx, q) == Some(w);
      assert WritesApart(svcs[last], q);
      MergeLastFrame(globalPrefix, svcs, build, q);
    }
  }

  /** The last service of a merge leaves alone the paths its writes are apart from. */
  lemma MergeLastFrame(globalPrefix: string, svcs: seq<ServiceContext>, build: EnvVarBuilder, q: seq<string>)
    requires |svcs| > 0
    requires MergeServices(globalPrefix, svcs, build).Ok?
    requires WritesApart(svcs[|svcs| - 1], q)
    ensures MergeServices(globalPrefix, svcs[..|svcs| - 1], build).Ok?
    ensures Get(MergeServices(globalPrefix, svcs, build).value.ctx, q)
         == Get(MergeServices(globalPrefix, svcs[..|svcs| - 1], build).value.ctx, q)
  {
    MergeStep(globalPrefix, svcs, build);
    var before := MergeServices(globalPrefix, svcs[..|svcs| - 1], build).value;
    ProcessServiceContextFrame(svcs[|svcs| - 1], before.ctx, globalPrefix, build, q);
  }

  /** A later service leaves the four-segment path `p` alone: neither of its
      own paths is `p` and its id is not `p`'s first segment. */
  predicate LeavesPathAlone(svc: ServiceContext, p: seq<string>)
    requires |p| == 4
  {
    && RawPath(svc.service) != p
    && SanitizedPath(svc.service) != p
    && svc.id != Some(p[0])
  }

  lemma LeavesPathAloneApart(svc: ServiceContext, p: seq<string>)
    requires |p| == 4 && LeavesPathAlone(svc, p)
    ensures WritesApart(svc, p)
  {
    SameLengthEqualOrApart(RawPath(svc.service), p);
    SameLengthEqualOrApart(SanitizedPath(svc.service), p);
    if svc.id.Some? {
      assert [svc.id.value][0] != p[0];
    }
  }

  /** The state after the first `i + 1` services, given the whole merge succeeded. */
  lemma MergeUpTo(globalPrefix: string, svcs: seq<ServiceContext>, build: EnvVarBuilder, i: nat)
    requires i < |svcs|
    requires MergeServices(globalPrefix, svcs, build).Ok?
    ensures MergeServices(globalPrefix, svcs[..i], build).Ok?
    ensures MergeServices(globalPrefix, svcs[..i + 1], build).Ok?
    ensures ProcessServiceContext(svcs[i], MergeServices(globalPrefix, svcs[..i], build).value.ctx, globalPrefix, build).Ok?
    ensures MergeServices(globalPrefix, svcs[..i + 1], build).value.ctx
         == ProcessServiceContext(svcs[i], MergeServices(globalPrefix, svcs[..i], build).value.ctx, globalPrefix, build).value.ctx
  {
    MergePrefixOk(globalPrefix, svcs, build, i + 1);
    MergeStep(globalPrefix, svcs[..i + 1], build);
    assert svcs[..i + 1][..i] == svcs[..i];
  }

  /** The finished lookup context still reads service `i`'s object at its raw and
      sanitized paths, unless a later service writes that very path or uses its
      version as an id, or service `i`'s own id is its version. */
  lemma ServicePathsVisible(globalPrefix: string, svcs: seq<ServiceContext>, build: EnvVarBuilder, i: nat)
    requires MergeServices(globalPrefix, svcs, build).Ok?
    requires i < |svcs|
    requires svcs[i].id != Some(svcs[i].service.gvk.version)
    requires forall j :: i < j < |svcs| ==> LeavesPathAlone(svcs[j], RawPath(svcs[i].service))
    requires forall j :: i < j < |svcs| ==> LeavesPathAlone(svcs[j], SanitizedPath(svcs[i].service))
    ensures Get(MergeServices(globalPrefix, svcs, build).value.ctx, RawPath(svcs[i].service))
         == Some(Object(svcs[i].service.content))
    ensures Get(MergeServices(globalPrefix, svcs, build).value.ctx, SanitizedPath(svcs[i].service))
         == Some(Object(svcs[i].service.content))
  {
    var obj := Object(svcs[i].service.content);
    var raw := RawPath(svcs[i].service);
    var sanitized := SanitizedPath(svcs[i].service);
    MergeUpTo(globalPrefix, svcs, build, i);
    ProcessServiceContextPublishes(svcs[i], MergeServices(globalPrefix, svcs[..i], build).value.ctx, globalPrefix, build);
    forall j | i + 1 <= j < |svcs|
      ensures WritesApart(svcs[j], raw) && WritesApart(svcs[j], sanitized)
    {
      LeavesPathAloneApart(svcs[j], raw);
      LeavesPathAloneApart(svcs[j], sanitized);
    }
    LaterWritesApartKeep(globalPrefix, svcs, build, i + 1, raw, obj);
    LaterWritesApartKeep(globalPrefix, svcs, build, i + 1, sanitized, obj);
  }

  /** On an id shared by several services, the top-level key holds the object of
      the last of them, provided no later service uses that id as its version. */
  lemma LastIdWriteWins(globalPrefix: string, svcs: seq<ServiceContext>, build: EnvVarBuilder, i: nat)
    requires MergeServices(globalPrefix, svcs, build).Ok?
    requires i < |svcs| && svcs[i].id.Some?
    requires forall j :: i < j < |svcs| ==> svcs[j].id != svcs[i].id
    requires forall j :: i < j < |svcs| ==> svcs[j].service.gvk.version != svcs[i].id.value
    ensures Get(MergeServices(globalPrefix, svcs, build).value.ctx, [svcs[i].id.value])
         == Some(Object(svcs[i].service.content))
  {
    var idPath := [svcs[i].id.value];
    MergeUpTo(globalPrefix, svcs, build, i);
    ProcessServiceContextPublishes(svcs[i], MergeServices(globalPrefix, svcs[..i], build).value.ctx, globalPrefix, build);
    forall j | i + 1 <= j < |svcs|
      ensures WritesApart(svcs[j], idPath)
    {
      assert RawPath(svcs[j].service)[0] != idPath[0];
      assert SanitizedPath(svcs[j].service)[0] != idPath[0];
      if svcs[j].id.Some? {
        assert [svcs[j].id.value][0] != idPath[0];
      }
    }
    LaterWritesApartKeep(globalPrefix, svcs, build, i + 1, idPath, Object(svcs[i].service.content));
  }

  // ---------------------------------------------------------------------------
  // The secret data

  /** The result holds exactly the mapping keys and the keys some service derives. */
  lemma SecretKeys(
    globalPrefix: string, svcs: seq<ServiceContext>, mappings: seq<Mapping>,
    build: EnvVarBuilder, parse: MappingsParser, k: string)
    requires ProcessServiceContexts(globalPrefix, svcs, mappings, build, parse).Ok?
    ensures k in ProcessServiceContexts(globalPrefix, svcs, mappings, build, parse).value <==>
              || k in parse(mappings, MergeServices(globalPrefix, svcs, build).value.ctx).value
              || SomeServiceDerives(globalPrefix, svcs, build, k)
  {
    MergedKeys(globalPrefix, svcs, build, k);
  }

  /** A key no mapping names carries the value derived by the last service that derives it. */
  lemma SecretDerivedValue(
    globalPrefix: string, svcs: seq<ServiceContext>, mappings: seq<Mapping>,
    build: EnvVarBuilder, parse: MappingsParser, i: nat, k: string)
    requires ProcessServiceContexts(globalPrefix, svcs, mappings, build, parse).Ok?
    requires k !in parse(mappings, MergeServices(globalPrefix, svcs, build).value.ctx).value
    requires i < |svcs| && Derives(globalPrefix, svcs[i], build, k)
    requires forall j :: i < j < |svcs| ==> !Derives(globalPrefix, svcs[j], build, k)
    ensures k in ProcessServiceContexts(globalPrefix, svcs, mappings, build, parse).value
    ensures Utf8.Decode(ProcessServiceContexts(globalPrefix, svcs, mappings, build, parse).value[k])
         == Some(BuildServiceEnvVars(svcs[i], globalPrefix, build).value[k])
  {
    LaterServiceWins(globalPrefix, svcs, build, i, k);
  }

  // ---------------------------------------------------------------------------
  // The custom-mapping scenario

  const DatabaseGvk := GroupVersionKind("postgresql.baiju.dev", "v1alpha1", "Database")

  /** The `db1` Database service, with status field `dbName` = `db1`, no prefix and no id. */
  const Db1Service := ServiceContext(
    Resource(DatabaseGvk, "db1",
      map["metadata" := Object(map["name" := Str("db1")]),
          "status" := Object(map["dbName" := Str("db1")])]),
    map[], None, None)

  const Db1Mappings := [Mapping("MY_DB_NAME", "{{ index . \"v1alpha1\" \"postgresql.baiju.dev\" \"Database\" \"db1\" \"status\" \"dbName\" }}")]

  /** The path the `MY_DB_NAME` template indexes. */
  const Db1NamePath := ["v1alpha1", "postgresql.baiju.dev", "Database", "db1", "status", "dbName"]

  /** The template's path is the service's raw path followed by `status`, `dbName`. */
  lemma Db1NamePathSplits()
    ensures Db1NamePath == RawPath(Db1Service.service) + ["status", "dbName"]
  {
  }

  lemma EncodeDb1()
    ensures Utf8.Encode("db1") == [0x64, 0x62, 0x31]
  {
  }

  /** Merging a single service is processing it against an empty context. */
  lemma MergeSingle(globalPrefix: string, svc: ServiceContext, build: EnvVarBuilder)
    requires BuildServiceEnvVars(svc, globalPrefix, build).Ok?
    ensures MergeServices(globalPrefix, [svc], build).Ok?
    ensures ProcessServiceContext(svc, map[], globalPrefix, build).Ok?
    ensures MergeServices(globalPrefix, [svc], build).value.ctx
         == ProcessServiceContext(svc, map[], globalPrefix, build).value.ctx
  {
    assert [svc][..0] == [];
    SettableEmpty(RawPath(svc.service));
    SettableEmpty(SanitizedPath(svc.service));
    ProcessServiceContextOkIff(svc, map[], globalPrefix, build);
    MergeStep(globalPrefix, [svc], build);
  }

  /** With a single service, every field of its object can be read below its raw path. */
  lemma SingleServiceFieldLookup(globalPrefix: string, svc: ServiceContext, build: EnvVarBuilder, field: seq<string>)
    requires BuildServiceEnvVars(svc, globalPrefix, build).Ok?
    requires svc.id != Some(svc.service.gvk.version)
    ensures MergeServices(globalPrefix, [svc], build).Ok?
    ensures Get(MergeServices(globalPrefix, [svc], build).value.ctx, RawPath(svc.service) + field)
         == Walk(Object(svc.service.content), field)
  {
    MergeSingle(globalPrefix, svc, build);
    ProcessServiceContextPublishes(svc, map[], globalPrefix, build);
    var ctx := MergeServices(globalPrefix, [svc], build).value.ctx;
    WalkConcat(Object(ctx), RawPath(svc.service), field);
  }

  /** A mapping result reaches the secret as the bytes of its string. */
  lemma MappedValueInSecret(
    globalPrefix: string, svcs: seq<ServiceContext>, mappings: seq<Mapping>,
    build: EnvVarBuilder, parse: MappingsParser, k: string)
    requires MergeServices(globalPrefix, svcs, build).Ok?
    requires parse(mappings, MergeServices(globalPrefix, svcs, build).value.ctx).Ok?
    requires k in parse(mappings, MergeServices(globalPrefix, svcs, build).value.ctx).value
    ensures ProcessServiceContexts(globalPrefix, svcs, mappings, build, parse).Ok?
    ensures k in ProcessServiceContexts(globalPrefix, svcs, mappings, build, parse).value
    ensures ProcessServiceContexts(globalPrefix, svcs, mappings, build, parse).value[k]
         == Utf8.Encode(parse(mappings, MergeServices(globalPrefix, svcs, build).value.ctx).value[k])
  {
  }

  lemma Db1StatusDbName()
    ensures Walk(Object(Db1Service.service.content), ["status", "dbName"]) == Some(Str("db1"))
  {
    var content := Db1Service.service.content;
    WalkConcat(Object(content), ["status"], ["dbName"]);
    assert ["status"] + ["dbName"] == ["status", "dbName"];
    GetSingle(content, "status");
    GetSingle(map["dbName" := Str("db1")], "dbName");
  }

  /** With the one `db1` service the lookup context reads `db1` at the path the
      `MY_DB_NAME` template indexes. */
  lemma Db1ContextLookup(build: EnvVarBuilder)
    requires BuildServiceEnvVars(Db1Service, "", build).Ok?
    ensures MergeServices("", [Db1Service], build).Ok?
    ensures Get(MergeServices("", [Db1Service], build).value.ctx, Db1NamePath) == Some(Str("db1"))
  {
    SingleServiceFieldLookup("", Db1Service, build, ["status", "dbName"]);
    Db1NamePathSplits();
    Db1StatusDbName();
  }

  /** A parser that yields `db1` for `MY_DB_NAME` (as the template does, reading the
      path above) makes the secret hold `MY_DB_NAME` = the bytes of `db1`, whatever
      the service itself derives. */
  lemma CustomMappingExample(build: EnvVarBuilder, parse: MappingsParser)
    requires BuildServiceEnvVars(Db1Service, "", build).Ok?
    requires MergeServices("", [Db1Service], build).Ok? ==>
               var mapped := parse(Db1Mappings, MergeServices("", [Db1Service], build).value.ctx);
               mapped.Ok? && "MY_DB_NAME" in mapped.value && mapped.value["MY_DB_NAME"] == "db1"
    ensures ProcessServiceContexts("", [Db1Service], Db1Mappings, build, parse).Ok?
    ensures "MY_DB_NAME" in ProcessServiceContexts("", [Db1Service], Db1Mappings, build, parse).value
    ensures ProcessServiceContexts("", [Db1Service], Db1Mappings, build, parse).value["MY_DB_NAME"] == [0x64, 0x62, 0x31]
  {
    MergeSingle("", Db1Service, build);
    MappedValueInSecret("", [Db1Service], Db1Mappings, build, parse, "MY_DB_NAME");
    EncodeDb1();
  }
}
