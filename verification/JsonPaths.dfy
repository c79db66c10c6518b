/** Reading and writing along key paths in nested dictionaries: `_route_json_path` of odps/serializers.py. */
module JsonPaths {
  import opened Text

  datatype Json = JNull | Atom(text: string) | List(items: seq<Json>) | Dict(entries: map<string, Json>)

  type Path = seq<string>

  const EMPTY := Dict(map[])

  /** The value behind a key, null when there is none. */
  function Child(entries: map<string, Json>, key: string): Json
  {
    if key in entries then entries[key] else JNull
  }

  /** `_route_json_path`: null as soon as a key is missing or null; only dictionaries have keys. */
  function Get(root: Json, path: Path): Outcome<Json>
    decreases |path|
  {
    if path == [] then Ok(root)
    else if !root.Dict? then Raise(AttributeError)
    else
      var next := Child(root.entries, path[0]);
      if next.JNull? then Ok(JNull) else Get(next, path[1..])
  }

  /** `_route_json_path` with `create_if_not_exists` up to the last key, then an assignment to it. */
  function Put(root: Json, path: Path, value: Json): Outcome<Json>
    requires path != []
    decreases |path|
  {
    if |path| == 1 then
      if root.Dict? then Ok(Dict(root.entries[path[0] := value])) else Raise(TypeError)
    else if !root.Dict? then Raise(AttributeError)
    else
      var next := Child(root.entries, path[0]);
      match Put(if next.JNull? then EMPTY else next, path[1..], value)
      case Raise(e) => Raise(e)
      case Ok(r) => Ok(Dict(root.entries[path[0] := r]))
  }

  /** The same with a list at the last key: created when the key is missing, else appended to. */
  function Append(root: Json, path: Path, items: seq<Json>): Outcome<Json>
    requires path != []
    decreases |path|
  {
    if |path| == 1 then
      if !root.Dict? then Raise(TypeError)
      else if path[0] !in root.entries then Ok(Dict(root.entries[path[0] := List(items)]))
      else
        match root.entries[path[0]]
        case List(before) => Ok(Dict(root.entries[path[0] := List(before + items)]))
        case _ => if items == [] then Ok(root) else Raise(AttributeError)
    else if !root.Dict? then Raise(AttributeError)
    else
      var next := Child(root.entries, path[0]);
      match Append(if next.JNull? then EMPTY else next, path[1..], items)
      case Raise(e) => Raise(e)
      case Ok(r) => Ok(Dict(root.entries[path[0] := r]))
  }

  /** Neither path leads to a place inside the other's value. */
  predicate Apart(p: Path, q: Path)
  {
    !(p <= q) && !(q <= p)
  }

  /** A value can be written: what is on the way is missing, null or a dictionary. */
  predicate Open(root: Json, path: Path)
    requires path != []
    decreases |path|
  {
    && root.Dict?
    && (|path| == 1 || Child(root.entries, path[0]).JNull? || Open(Child(root.entries, path[0]), path[1..]))
  }

  /** A value can be written, and there is none yet. */
  predicate Absent(root: Json, path: Path)
    requires path != []
    decreases |path|
  {
    && root.Dict?
    && if |path| == 1 then path[0] !in root.entries
       else Child(root.entries, path[0]).JNull? || Absent(Child(root.entries, path[0]), path[1..])
  }

  lemma {:induction false} AbsentIsOpen(root: Json, path: Path)
    requires path != [] && Absent(root, path)
    ensures Open(root, path) && Get(root, path) == Ok(JNull)
    decreases |path|
  {
    if |path| > 1 && !Child(root.entries, path[0]).JNull? {
      AbsentIsOpen(Child(root.entries, path[0]), path[1..]);
    }
  }

  lemma {:induction false} AppendIsPut(root: Json, path: Path, items: seq<Json>)
    requires path != [] && Absent(root, path)
    ensures Append(root, path, items) == Put(root, path, List(items))
    decreases |path|
  {
    if |path| > 1 {
      var next := Child(root.entries, path[0]);
      if next.JNull? {
        EmptyIsOpen(path[1..]);
      }
      AppendIsPut(if next.JNull? then EMPTY else next, path[1..], items);
    }
  }

  lemma ApartTail(p: Path, q: Path)
    requires p != [] && q != [] && p[0] == q[0] && Apart(p, q)
    ensures |p| > 1 && |q| > 1 && Apart(p[1..], q[1..])
  {
    assert p == [p[0]] + p[1..] && q == [q[0]] + q[1..];
  }

  lemma EmptyIsOpen(path: Path)
    requires path != []
    ensures Open(EMPTY, path) && Absent(EMPTY, path)
  {
  }

  lemma {:induction false} OpenIsWritable(root: Json, path: Path, value: Json)
    requires path != []
    ensures Put(root, path, value).Ok? <==> Open(root, path)
    ensures Put(root, path, value).Ok? ==> Put(root, path, value).value.Dict?
    decreases |path|
  {
    if |path| > 1 && root.Dict? {
      var next := Child(root.entries, path[0]);
      var from := if next.JNull? then EMPTY else next;
      OpenIsWritable(from, path[1..], value);
      if next.JNull? {
        EmptyIsOpen(path[1..]);
      }
    }
  }

  /** What is written is read. */
  lemma {:induction false} PutGet(root: Json, path: Path, value: Json)
    requires path != [] && Put(root, path, value).Ok?
    ensures Get(Put(root, path, value).value, path) == Ok(value)
    decreases |path|
  {
    var next := Child(root.entries, path[0]);
    if |path| > 1 {
      var from := if next.JNull? then EMPTY else next;
      PutGet(from, path[1..], value);
      OpenIsWritable(from, path[1..], value);
    } else {
      assert path[1..] == [];
    }
  }

  /** Writing one path changes nothing along a path apart from it. */
  lemma {:induction false} PutElsewhere(root: Json, p: Path, value: Json, q: Path)
    requires p != [] && q != [] && Apart(p, q) && Put(root, p, value).Ok?
    ensures var after := Put(root, p, value).value;
            && Get(after, q) == Get(root, q)
            && (Open(root, q) ==> Open(after, q)) && (Absent(root, q) ==> Absent(after, q))
    decreases |p|
  {
    if p[0] == q[0] {
      ApartTail(p, q);
      var next := Child(root.entries, p[0]);
      var from := if next.JNull? then EMPTY else next;
      PutElsewhere(from, p[1..], value, q[1..]);
      OpenIsWritable(from, p[1..], value);
      if next.JNull? {
        EmptyIsOpen(q[1..]);
        assert Get(EMPTY, q[1..]) == Ok(JNull);
      }
    }
  }

  // ----- paths that clash -----

  lemma {:induction false} GetThroughAtom(root: Json, p: Path, q: Path)
    requires p <= q && |p| < |q| && Get(root, p).Ok? && Get(root, p).value.Atom?
    ensures Get(root, q) == Raise(AttributeError)
    decreases |p|
  {
    if p != [] {
      assert p[1..] <= q[1..] && p[0] == q[0];
      GetThroughAtom(Child(root.entries, p[0]), p[1..], q[1..]);
    }
  }

  lemma {:induction false} AtomCloses(root: Json, p: Path, q: Path)
    requires p != [] && p <= q && |p| < |q| && Get(root, p).Ok? && Get(root, p).value.Atom?
    ensures !Open(root, q)
    decreases |p|
  {
    if |p| > 1 {
      assert p[1..] <= q[1..] && p[0] == q[0];
      AtomCloses(Child(root.entries, p[0]), p[1..], q[1..]);
    } else {
      assert p == [q[0]] && p[1..] == [];
    }
  }

  lemma EqualLengths(p: Path, q: Path)
    requires |p| == |q| && !Apart(p, q)
    ensures p == q
  {
  }

  /** Two different plain values written one after the other are both read back exactly when the paths are apart. */
  lemma BothKeptIff(p: Path, q: Path, a: Json, b: Json)
    requires p != [] && q != [] && a.Atom? && b.Atom? && a != b
    ensures Put(EMPTY, p, a).Ok?
    ensures var first := Put(EMPTY, p, a).value;
            (Put(first, q, b).Ok? && Get(Put(first, q, b).value, p) == Ok(a) && Get(Put(first, q, b).value, q) == Ok(b))
            <==> Apart(p, q)
  {
    EmptyIsOpen(p);
    EmptyIsOpen(q);
    OpenIsWritable(EMPTY, p, a);
    OpenIsWritable(EMPTY, q, b);
    PutGet(EMPTY, p, a);
    var first := Put(EMPTY, p, a).value;
    OpenIsWritable(first, q, b);
    if Apart(p, q) {
      PutElsewhere(EMPTY, p, a, q);
      PutElsewhere(first, q, b, p);
      PutGet(first, q, b);
    } else if p <= q && |p| < |q| {
      AtomCloses(first, p, q);
    } else if Put(first, q, b).Ok? {
      PutGet(first, q, b);
      var both := Put(first, q, b).value;
      if |p| == |q| {
        EqualLengths(p, q);
      }
      if |q| < |p| {
        GetThroughAtom(both, q, p);
      }
    }
  }

  // ----- the loops -----

  /** `_route_json_path` without creation. */
  method RouteJsonPath(start: Json, keys: Path) returns (r: Outcome<Json>)
    ensures r == Get(start, keys)
  {
    var root := start;
    assert keys[0..] == keys;
    for i := 0 to |keys|
      invariant Get(start, keys) == Get(root, keys[i..])
    {
      assert keys[i..][1..] == keys[i + 1..];
      if !root.Dict? {
        return Raise(AttributeError);
      }
      root := Child(root.entries, keys[i]);
      if root.JNull? {
        return Ok(JNull);
      }
    }
    return Ok(root);
  }

  // ----- what cannot be written -----

  /** The place before the last key decides: something else than a dictionary there is a `TypeError`, and something else
      on the way to it an `AttributeError`. */
  lemma {:induction false} PutFailsIff(root: Json, path: Path, value: Json)
    requires path != []
    ensures var place := Get(root, path[..|path| - 1]);
            && (Put(root, path, value) == Raise(AttributeError) <==> place.Raise?)
            && (Put(root, path, value) == Raise(TypeError)
                <==> place.Ok? && !place.value.Dict? && (|path| == 1 || !place.value.JNull?))
            && (Put(root, path, value).Raise? ==> Put(root, path, value).error in {AttributeError, TypeError})
    decreases |path|
  {
    if |path| > 1 && root.Dict? {
      var next := Child(root.entries, path[0]);
      assert path[..|path| - 1][0] == path[0] && path[..|path| - 1][1..] == path[1..][..|path| - 2];
      if next.JNull? {
        EmptyIsOpen(path[1..]);
        OpenIsWritable(EMPTY, path[1..], value);
      } else {
        PutFailsIff(next, path[1..], value);
      }
    }
  }

  /** What is there already is appended to; anything but a list cannot be, unless there is nothing to append. */
  lemma {:induction false} AppendToExisting(root: Json, path: Path, items: seq<Json>)
    requires path != [] && Get(root, path).Ok? && !Get(root, path).value.JNull?
    ensures Append(root, path, items)
         == var before := Get(root, path).value;
            if before.List? then Put(root, path, List(before.items + items))
            else if items == [] then Ok(root)
            else Raise(AttributeError)
    decreases |path|
  {
    var next := Child(root.entries, path[0]);
    if |path| > 1 {
      AppendToExisting(next, path[1..], items);
      assert root.entries[path[0] := next] == root.entries;
    } else {
      assert path[1..] == [];
      assert Get(next, []) == Ok(next);
    }
  }

  /** A null value under the last key is no list either. */
  lemma AppendToNull(entries: map<string, Json>, key: string, items: seq<Json>)
    requires key in entries && entries[key].JNull?
    ensures Append(Dict(entries), [key], items) == if items == [] then Ok(Dict(entries)) else Raise(AttributeError)
  {
  }
}
