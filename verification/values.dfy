/** The schema-less object tree of an unstructured resource, and the nested
    read and write that the lookup context is built with. */
module Values {
  import opened Results

  /** A JSON-like value as found in an unstructured object. */
  datatype Value =
    | Object(fields: map<string, Value>)
    | Array(items: seq<Value>)
    | Str(s: string)
    | Int(n: int)
    | Bool(b: bool)
    | Null

  /** A Go `map[string]interface{}`: the root of an object or of the lookup context. */
  type Tree = map<string, Value>

  /** Follows `path` from `v` through nested maps; `None` when a segment is missing
      or a value on the way is not a map. */
  function Walk(v: Value, path: seq<string>): Option<Value>
    decreases |path|
  {
    if |path| == 0 then Some(v)
    else if v.Object? && path[0] in v.fields then Walk(v.fields[path[0]], path[1..])
    else None
  }

  /** The value at `path` in a tree; the empty path denotes the tree itself. */
  function Get(t: Tree, path: seq<string>): Option<Value> {
    Walk(Object(t), path)
  }

  /** `path` leads to something that is neither a map nor null, so a nested write
      cannot pass through it; a null on the way counts as missing. */
  predicate HoldsNonMap(t: Tree, path: seq<string>) {
    Get(t, path).Some? && !Get(t, path).value.Object? && !Get(t, path).value.Null?
  }

  /** No proper non-empty prefix of `path` leads to a non-null non-map, so a nested
      write can go through. */
  predicate Settable(t: Tree, path: seq<string>) {
    forall i :: 0 < i < |path| ==> !HoldsNonMap(t, path[..i])
  }

  /** The paths differ at some segment both have, so neither is a prefix of the
      other and they name disjoint subtrees. */
  predicate Apart(p: seq<string>, q: seq<string>) {
    exists j :: 0 <= j < |p| && j < |q| && p[j] != q[j]
  }

  /** Writes `v` at `path`, creating missing intermediate maps (a null intermediate is
      replaced by a new map) and replacing the leaf; fails, naming the prefix, when an
      intermediate segment holds some other non-map. */
  function SetNested(t: Tree, v: Value, path: seq<string>): (r: Result<Tree>)
    requires |path| > 0
    ensures r.Ok? ==> Get(r.value, path) == Some(v)
    ensures r.Ok? ==> r.value.Keys == t.Keys + {path[0]}
    ensures r.Err? ==> r.error.NotAMap? && 0 < |r.error.path| < |path|
                       && r.error.path <= path && HoldsNonMap(t, r.error.path)
    decreases |path|
  {
    var head := path[0];
    if |path| == 1 then
      GetSingle(t[head := v], head);
      assert path == [head];
      Ok(t[head := v])
    else
      var child := if head in t && !t[head].Null? then t[head] else Object(map[]);
      match child
      case Object(sub) =>
        (match SetNested(sub, v, path[1..])
         case Ok(sub') =>
           assert path == [head] + path[1..];
           Ok(t[head := Object(sub')])
         case Err(e) =>
           var p := [head] + e.path;
           assert Get(t, p) == Walk(Object(sub), e.path);
           Err(NotAMap(p)))
      case _ =>
        GetSingle(t, head);
        Err(NotAMap([head]))
  }

  /** A null on the way is replaced by a new map rather than reported. */
  lemma SetNestedThroughNull()
    ensures SetNested(map["a" := Null], Int(1), ["a", "b"]) == Ok(map["a" := Object(map["b" := Int(1)])])
  {
    var t := map["a" := Null];
    var sub' := map["b" := Int(1)];
    assert ["a", "b"][1..] == ["b"];
    assert SetNested(map[], Int(1), ["b"]) == Ok(sub');
    assert t["a" := Object(sub')] == map["a" := Object(sub')];
  }

  /** Following `p + s` is following `p` and then `s` from wherever `p` led. */
  lemma {:induction false} WalkConcat(v: Value, p: seq<string>, s: seq<string>)
    ensures Walk(v, p + s) == if Walk(v, p).Some? then Walk(Walk(v, p).value, s) else None
    decreases |p|
  {
    if |p| == 0 {
      assert p + s == s;
    } else {
      assert (p + s)[0] == p[0];
      assert (p + s)[1..] == p[1..] + s;
      if v.Object? && p[0] in v.fields {
        WalkConcat(v.fields[p[0]], p[1..], s);
      }
    }
  }

  /** Nothing can be read out of an empty map, so every path is settable in it. */
  lemma SettableEmpty(p: seq<string>)
    ensures Settable(map[], p)
  {
    forall i | 0 < i < |p|
      ensures !HoldsNonMap(map[], p[..i])
    {
      GetEmpty(p[..i]);
    }
  }

  /** A one-segment read is a plain map lookup. */
  lemma GetSingle(t: Tree, k: string)
    ensures Get(t, [k]) == if k in t then Some(t[k]) else None
  {
    if k in t {
      assert [k][0] == k && [k][1..] == [];
      assert Get(t, [k]) == Walk(t[k], []);
    }
  }

  /** Reading through a map-valued first segment is reading in that map. */
  lemma GetThrough(t: Tree, head: string, sub: Tree, rest: seq<string>)
    requires head in t && t[head] == Object(sub)
    ensures Get(t, [head] + rest) == Get(sub, rest)
  {
    assert ([head] + rest)[1..] == rest;
  }

  /** A read that passes through a null finds nothing. */
  lemma GetThroughNull(t: Tree, head: string, rest: seq<string>)
    requires head in t && t[head].Null? && |rest| > 0
    ensures Get(t, [head] + rest) == None
  {
    var p := [head] + rest;
    assert p[0] == head && p[1..] == rest;
    assert Get(t, p) == Walk(Null, rest);
  }

  /** Nothing non-empty can be read out of an empty map. */
  lemma GetEmpty(q: seq<string>)
    requires |q| > 0
    ensures Get(map[], q) == None
  {
  }

  /** A write succeeds exactly when its path is settable. */
  lemma {:induction false} SetNestedOkIff(t: Tree, v: Value, path: seq<string>)
    requires |path| > 0
    ensures SetNested(t, v, path).Ok? <==> Settable(t, path)
    decreases |path|
  {
    var head := path[0];
    if |path| > 1 {
      if head in t && t[head].Object? {
        var sub := t[head].fields;
        SetNestedOkIff(sub, v, path[1..]);
        forall i | 1 < i < |path|
          ensures HoldsNonMap(t, path[..i]) == HoldsNonMap(sub, path[1..][..i-1])
        {
          assert path[..i] == [head] + path[1..][..i-1];
          GetThrough(t, head, sub, path[1..][..i-1]);
        }
        assert !HoldsNonMap(t, path[..1]) by {
          assert path[..1] == [head] + [];
          GetThrough(t, head, sub, []);
        }
        if Settable(t, path) {
          forall j | 0 < j < |path[1..]|
            ensures !HoldsNonMap(sub, path[1..][..j])
          {
            assert HoldsNonMap(t, path[..j+1]) == HoldsNonMap(sub, path[1..][..j]);
          }
        }
      } else if head in t && !t[head].Null? {
        assert path[..1] == [head];
        GetSingle(t, head);
        assert HoldsNonMap(t, path[..1]);
      } else {
        SetNestedOkIff(map[], v, path[1..]);
        forall i | 0 < i < |path|
          ensures !HoldsNonMap(t, path[..i])
        {
          if head in t {
            if i == 1 {
              assert path[..1] == [head];
              GetSingle(t, head);
            } else {
              assert path[..i] == [head] + path[..i][1..];
              GetThroughNull(t, head, path[..i][1..]);
            }
          }
        }
        forall j | 0 < j < |path[1..]|
          ensures !HoldsNonMap(map[], path[1..][..j])
        {
          GetEmpty(path[1..][..j]);
        }
      }
    }
  }

  /** A write leaves every path apart from its own unchanged. */
  lemma {:induction false} SetNestedFrame(t: Tree, v: Value, path: seq<string>, q: seq<string>)
    requires |path| > 0 && SetNested(t, v, path).Ok?
    requires Apart(path, q)
    ensures Get(SetNested(t, v, path).value, q) == Get(t, q)
    decreases |path|
  {
    var r := SetNested(t, v, path).value;
    var head := path[0];
    assert |q| > 0;
    if q[0] != head {
      assert q == [q[0]] + q[1..];
    } else {
      var j :| 0 <= j < |path| && j < |q| && path[j] != q[j];
      assert path[1..][j-1] != q[1..][j-1];
      assert q == [head] + q[1..];
      var sub := if head in t && t[head].Object? then t[head].fields else map[];
      SetNestedFrame(sub, v, path[1..], q[1..]);
      var sub' := SetNested(sub, v, path[1..]).value;
      GetThrough(r, head, sub', q[1..]);
      GetEmpty(q[1..]);
      if head in t && t[head].Object? {
        GetThrough(t, head, sub, q[1..]);
      } else if head in t {
        GetThroughNull(t, head, q[1..]);
      }
    }
  }

  /** Beneath the written path the tree reads exactly as the written value. */
  lemma {:induction false} SetNestedBeneath(t: Tree, v: Value, path: seq<string>, s: seq<string>)
    requires |path| > 0 && SetNested(t, v, path).Ok?
    ensures Get(SetNested(t, v, path).value, path + s) == Walk(v, s)
    decreases |path|
  {
    var r := SetNested(t, v, path).value;
    var head := path[0];
    if |path| == 1 {
      assert path + s == [head] + s;
      assert ([head] + s)[1..] == s;
    } else {
      var sub := if head in t && t[head].Object? then t[head].fields else map[];
      SetNestedBeneath(sub, v, path[1..], s);
      assert path + s == [head] + (path[1..] + s);
      GetThrough(r, head, SetNested(sub, v, path[1..]).value, path[1..] + s);
    }
  }

  /** Every proper prefix of a written path holds a map afterwards. */
  lemma {:induction false} SetNestedPrefixIsMap(t: Tree, v: Value, path: seq<string>, i: nat)
    requires |path| > 0 && SetNested(t, v, path).Ok?
    requires i < |path|
    ensures Get(SetNested(t, v, path).value, path[..i]).Some?
    ensures Get(SetNested(t, v, path).value, path[..i]).value.Object?
    decreases |path|
  {
    var r := SetNested(t, v, path).value;
    var head := path[0];
    if i > 0 {
      var sub := if head in t && t[head].Object? then t[head].fields else map[];
      SetNestedPrefixIsMap(sub, v, path[1..], i - 1);
      assert path[..i] == [head] + path[1..][..i-1];
      GetThrough(r, head, SetNested(sub, v, path[1..]).value, path[1..][..i-1]);
    }
  }
}
