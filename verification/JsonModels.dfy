/** JSON models (odps/serializers.py): `serial` writes the fields of an object into one document, `deserial` reads
    them. */
module JsonModels {
  import opened Text
  import opened JsonPaths

  /** The fields of a model class, in order. */
  datatype Model = Model(fields: seq<Field>)

  datatype Field = Field(path: Path, required: bool, blankIfNull: bool, kind: Kind)

  /** `JSONNodeField` with its callbacks and default, `JSONNodeReferenceField`, `JSONNodesReferencesField`. */
  datatype Kind =
    | Plain(write: Json -> Json, read: Json -> Json, fallback: Json)
    | Ref(model: Model)
    | Refs(model: Model)

  /** A field's value: None, a plain value, an object, or a list of objects. */
  datatype Value = Missing | Data(json: Json) | One(obj: Object) | Many(objs: seq<Object>)

  datatype Object = Object(values: seq<Value>)

  // ----- serial -----

  /** What a plain field writes: its value, its default, or a blank text. */
  function Effective(f: Field, v: Value): Json
    requires f.kind.Plain?
  {
    if v.Data? then v.json
    else if !f.kind.fallback.JNull? then f.kind.fallback
    else if f.blankIfNull then Atom("")
    else JNull
  }

  function SerializeField(root: Json, f: Field, v: Value): Outcome<Json>
    requires f.path != []
    decreases f, 0
  {
    match f.kind
    case Plain(write, _, _) =>
      var json := Effective(f, v);
      if !f.required && json.JNull? then Ok(root) else Put(root, f.path, write(json))
    case Ref(model) =>
      (match v
       case One(obj) =>
         (match Serial(model, obj)
          case Raise(e) => Raise(e)
          case Ok(json) => Put(root, f.path, json))
       case _ => if f.required then Raise(AttributeError) else Ok(root))
    case Refs(model) =>
      (match v
       case Many(objs) =>
         (match SerialAll(model, objs)
          case Raise(e) => Raise(e)
          case Ok(items) => Append(root, f.path, items))
       case _ =>
         if f.blankIfNull then Append(root, f.path, [])
         else if f.required then Raise(TypeError)
         else Ok(root))
  }

  function Serial(model: Model, obj: Object): Outcome<Json>
    decreases model, 1
  {
    if |obj.values| != |model.fields| then Raise(AttributeError)
    else SerialFrom(EMPTY, model, obj, 0)
  }

  /** The fields from `i` on, written into `root`. */
  function SerialFrom(root: Json, model: Model, obj: Object, i: nat): Outcome<Json>
    requires i <= |obj.values| == |model.fields|
    decreases model, 0, |model.fields| - i
  {
    if i == |model.fields| then Ok(root)
    else if model.fields[i].path == [] then Raise(IndexError)
    else
      match SerializeField(root, model.fields[i], obj.values[i])
      case Raise(e) => Raise(e)
      case Ok(next) => SerialFrom(next, model, obj, i + 1)
  }

  function SerialAll(model: Model, objs: seq<Object>): (r: Outcome<seq<Json>>)
    ensures r.Ok? ==> |r.value| == |objs|
    decreases model, 2, |objs|
  {
    if objs == [] then Ok([])
    else
      match Serial(model, objs[0])
      case Raise(e) => Raise(e)
      case Ok(first) =>
        match SerialAll(model, objs[1..])
        case Raise(e) => Raise(e)
        case Ok(rest) => Ok([first] + rest)
  }

  /** The loop of `serial`: one field after the other into one document. */
  method SerialInOrder(model: Model, obj: Object) returns (r: Outcome<Json>)
    ensures r == Serial(model, obj)
  {
    hide SerializeField;
    if |obj.values| != |model.fields| {
      return Raise(AttributeError);
    }
    var root := EMPTY;
    for i := 0 to |model.fields|
      invariant Serial(model, obj) == SerialFrom(root, model, obj, i)
    {
      if model.fields[i].path == [] {
        return Raise(IndexError);
      }
      var next := SerializeField(root, model.fields[i], obj.values[i]);
      if next.Raise? {
        return next;
      }
      root := next.value;
    }
    return Ok(root);
  }

  // ----- deserial -----

  function ParseField(root: Json, f: Field): Outcome<Value>
    decreases f, 0
  {
    match Get(root, f.path)
    case Raise(e) => Raise(e)
    case Ok(json) =>
      if json.JNull? then Ok(Missing)
      else
        match f.kind
        case Plain(_, read, _) => Ok(Data(read(json)))
        case Ref(model) =>
          (match Deserial(model, json)
           case Raise(e) => Raise(e)
           case Ok(obj) => Ok(One(obj)))
        case Refs(model) =>
          (match json
           case List(items) =>
             (match DeserialAll(model, items)
              case Raise(e) => Raise(e)
              case Ok(objs) => Ok(Many(objs)))
           case _ => Raise(ValueError))
  }

  function Deserial(model: Model, root: Json): Outcome<Object>
    decreases model, 1
  {
    match ParseFrom(root, model, 0)
    case Raise(e) => Raise(e)
    case Ok(values) => Ok(Object(values))
  }

  function ParseFrom(root: Json, model: Model, i: nat): Outcome<seq<Value>>
    requires i <= |model.fields|
    decreases model, 0, |model.fields| - i
  {
    if i == |model.fields| then Ok([])
    else
      match ParseField(root, model.fields[i])
      case Raise(e) => Raise(e)
      case Ok(first) =>
        match ParseFrom(root, model, i + 1)
        case Raise(e) => Raise(e)
        case Ok(rest) => Ok([first] + rest)
  }

  function DeserialAll(model: Model, items: seq<Json>): Outcome<seq<Object>>
    decreases model, 2, |items|
  {
    if items == [] then Ok([])
    else
      match Deserial(model, items[0])
      case Raise(e) => Raise(e)
      case Ok(first) =>
        match DeserialAll(model, items[1..])
        case Raise(e) => Raise(e)
        case Ok(rest) => Ok([first] + rest)
  }

  // ----- which objects come back -----

  /** The callbacks read back the value `j` that they write; a null that must be written stays null. */
  predicate Faithful(f: Field, j: Json)
    requires f.kind.Plain?
  {
    var json := f.kind.write(j);
    if j.JNull? then f.required ==> json.JNull? else !json.JNull? && f.kind.read(json) == j
  }

  /** Field paths are pairwise apart, at every level. */
  ghost predicate Sound(model: Model)
    decreases model
  {
    && (forall i | 0 <= i < |model.fields| :: model.fields[i].path != [])
    && (forall i, j | 0 <= i < j < |model.fields| :: Apart(model.fields[i].path, model.fields[j].path))
    && forall f | f in model.fields ::
         match f.kind
         case Plain(_, _, _) => true
         case Ref(m) => Sound(m)
         case Refs(m) => Sound(m)
  }

  /** Every value has its field's kind, what is written for it can be read back, and no required reference is
      missing. */
  predicate Typed(obj: Object, model: Model)
    decreases model, 1
  {
    |obj.values| == |model.fields| && forall i | 0 <= i < |model.fields| :: TypedValue(obj.values[i], model.fields[i])
  }

  predicate TypedValue(v: Value, f: Field)
    decreases f, 0
  {
    match f.kind
    case Plain(_, _, _) => (v.Missing? || (v.Data? && !v.json.JNull?)) && Faithful(f, Effective(f, v))
    case Ref(m) => (v.Missing? && !f.required) || (v.One? && Typed(v.obj, m))
    case Refs(m) =>
      (v.Missing? && (!f.required || f.blankIfNull)) || (v.Many? && forall o | o in v.objs :: Typed(o, m))
  }

  /** What comes back: the value, or what was written in its place. */
  function Filled(v: Value, f: Field): Value
    requires TypedValue(v, f)
    decreases f, 0
  {
    match f.kind
    case Plain(_, _, _) => if Effective(f, v).JNull? then Missing else Data(Effective(f, v))
    case Ref(m) => if v.One? then One(FilledObject(v.obj, m)) else Missing
    case Refs(m) =>
      if v.Many? then Many(FilledAll(v.objs, m)) else if f.blankIfNull then Many([]) else Missing
  }

  function FilledObject(obj: Object, model: Model): Object
    requires Typed(obj, model)
    decreases model, 1
  {
    Object(FilledFrom(obj, model, 0))
  }

  function FilledFrom(obj: Object, model: Model, i: nat): (r: seq<Value>)
    requires Typed(obj, model) && i <= |model.fields|
    ensures |r| == |model.fields| - i
    decreases model, 0, |model.fields| - i
  {
    if i == |model.fields| then [] else [Filled(obj.values[i], model.fields[i])] + FilledFrom(obj, model, i + 1)
  }

  function FilledAll(objs: seq<Object>, model: Model): (r: seq<Object>)
    requires forall o | o in objs :: Typed(o, model)
    ensures |r| == |objs|
    decreases model, 2, |objs|
  {
    if objs == [] then [] else [FilledObject(objs[0], model)] + FilledAll(objs[1..], model)
  }

  // ----- proof -----

  /** A dictionary in which the paths of the fields from `i` on are still open. */
  predicate Ready(root: Json, model: Model, i: nat)
  {
    && root.Dict?
    && forall j | i <= j < |model.fields| ::
         model.fields[j].path != [] && Absent(root, model.fields[j].path)
  }

  /** The fields before `i` read as their filled values. */
  predicate Written(root: Json, model: Model, obj: Object, i: nat)
    requires Typed(obj, model) && i <= |model.fields|
  {
    forall j | 0 <= j < i :: ParseField(root, model.fields[j]) == Ok(Filled(obj.values[j], model.fields[j]))
  }

  lemma ParseFieldReads(a: Json, b: Json, f: Field)
    requires Get(a, f.path) == Get(b, f.path)
    ensures ParseField(a, f) == ParseField(b, f)
  {
  }

  lemma {:induction false} FieldWritten(root: Json, f: Field, v: Value)
    requires f.path != [] && Absent(root, f.path) && TypedValue(v, f)
    requires match f.kind case Plain(_, _, _) => true case Ref(m) => Sound(m) case Refs(m) => Sound(m)
    ensures var r := SerializeField(root, f, v);
            && r.Ok? && ParseField(r.value, f) == Ok(Filled(v, f))
            && (r.value == root || exists json :: Put(root, f.path, json) == r)
    decreases f, 0
  {
    AbsentIsOpen(root, f.path);
    hide Put, Append, Absent, Get, Open, Serial, Deserial, SerialAll, DeserialAll, FilledObject, FilledAll, Typed,
         Sound;
    match f.kind
    case Plain(write, read, _) =>
      var json := Effective(f, v);
      if f.required || !json.JNull? {
        OpenIsWritable(root, f.path, write(json));
        PutGet(root, f.path, write(json));
      }
    case Ref(m) =>
      if v.One? {
        ObjectComesBack(v.obj, m);
        var json := Serial(m, v.obj).value;
        OpenIsWritable(root, f.path, json);
        PutGet(root, f.path, json);
      }
    case Refs(m) =>
      if v.Many? {
        AllComeBack(v.objs, m);
        var items := SerialAll(m, v.objs).value;
        AppendIsPut(root, f.path, items);
        OpenIsWritable(root, f.path, List(items));
        PutGet(root, f.path, List(items));
      } else if f.blankIfNull {
        AppendIsPut(root, f.path, []);
        OpenIsWritable(root, f.path, List([]));
        PutGet(root, f.path, List([]));
        NoObjects(m);
      }
  }

  lemma NoObjects(m: Model)
    ensures DeserialAll(m, []) == Ok([])
  {
  }

  lemma {:induction false} FieldsWritten(root: Json, model: Model, obj: Object, i: nat)
    requires Sound(model) && Typed(obj, model) && i <= |model.fields|
    requires Ready(root, model, i) && Written(root, model, obj, i)
    ensures var r := SerialFrom(root, model, obj, i);
            r.Ok? && r.value.Dict? && Written(r.value, model, obj, |model.fields|)
    decreases model, 0, |model.fields| - i
  {
    hide Put, Get, Open, Absent, SerializeField, ParseField, Filled, TypedValue, Faithful, Apart;
    if i < |model.fields| {
      var f := model.fields[i];
      assert f in model.fields;
      FieldWritten(root, f, obj.values[i]);
      var next := SerializeField(root, f, obj.values[i]).value;
      if next != root {
        var json :| Put(root, f.path, json) == Ok(next);
        OpenIsWritable(root, f.path, json);
        forall j | 0 <= j < |model.fields| && j != i
          ensures Get(next, model.fields[j].path) == Get(root, model.fields[j].path)
          ensures Absent(root, model.fields[j].path) ==> Absent(next, model.fields[j].path)
        {
          ApartEitherWay(f.path, model.fields[j].path);
          PutElsewhere(root, f.path, json, model.fields[j].path);
        }
      }
      forall j | 0 <= j < i + 1
        ensures ParseField(next, model.fields[j]) == Ok(Filled(obj.values[j], model.fields[j]))
      {
        if j < i {
          ParseFieldReads(next, root, model.fields[j]);
        }
      }
      FieldsWritten(next, model, obj, i + 1);
    }
  }

  lemma ApartEitherWay(p: Path, q: Path)
    ensures Apart(p, q) <==> Apart(q, p)
  {
  }

  lemma {:induction false} WrittenParses(root: Json, model: Model, obj: Object, i: nat)
    requires Typed(obj, model) && i <= |model.fields| && Written(root, model, obj, |model.fields|)
    ensures ParseFrom(root, model, i) == Ok(FilledFrom(obj, model, i))
    decreases |model.fields| - i
  {
    hide ParseField, Filled, TypedValue;
    if i < |model.fields| {
      WrittenParses(root, model, obj, i + 1);
    }
  }

  /** With paths apart, `deserial` of `serial` gives the object back, missing values filled in, nested objects
      included. */
  lemma {:induction false} ObjectComesBack(obj: Object, model: Model)
    requires Sound(model) && Typed(obj, model)
    ensures var json := Serial(model, obj);
            json.Ok? && json.value.Dict? && Deserial(model, json.value) == Ok(FilledObject(obj, model))
    decreases model, 1
  {
    hide ParseField, Filled, TypedValue, Faithful, Get, Open, Absent;
    forall j | 0 <= j < |model.fields| ensures Absent(EMPTY, model.fields[j].path) {
      EmptyIsOpen(model.fields[j].path);
    }
    FieldsWritten(EMPTY, model, obj, 0);
    WrittenParses(Serial(model, obj).value, model, obj, 0);
  }

  lemma {:induction false} AllComeBack(objs: seq<Object>, model: Model)
    requires Sound(model) && forall o | o in objs :: Typed(o, model)
    ensures var items := SerialAll(model, objs);
            items.Ok? && DeserialAll(model, items.value) == Ok(FilledAll(objs, model))
    decreases model, 2, |objs|
  {
    hide Serial, Deserial, FilledObject, Typed, Sound;
    if objs != [] {
      ObjectComesBack(objs[0], model);
      AllComeBack(objs[1..], model);
      var items := SerialAll(model, objs).value;
      assert items[1..] == SerialAll(model, objs[1..]).value;
    }
  }

  // ----- complete objects -----

  /** No value is missing, at any level, and each can be read back. */
  predicate Complete(obj: Object, model: Model)
    decreases model, 1
  {
    && |obj.values| == |model.fields|
    && forall i | 0 <= i < |model.fields| :: CompleteValue(obj.values[i], model.fields[i])
  }

  predicate CompleteValue(v: Value, f: Field)
    decreases f, 0
  {
    match f.kind
    case Plain(_, _, _) => v.Data? && !v.json.JNull? && Faithful(f, v.json)
    case Ref(m) => v.One? && Complete(v.obj, m)
    case Refs(m) => v.Many? && forall o | o in v.objs :: Complete(o, m)
  }

  lemma {:induction false} CompleteStays(obj: Object, model: Model)
    requires Complete(obj, model)
    ensures Typed(obj, model) && FilledObject(obj, model) == obj
    decreases model, 1
  {
    forall i | 0 <= i < |model.fields|
      ensures TypedValue(obj.values[i], model.fields[i])
           && Filled(obj.values[i], model.fields[i]) == obj.values[i]
    {
      CompleteValueStays(obj.values[i], model.fields[i]);
    }
    assert Typed(obj, model);
    CompleteFieldsStay(obj, model, 0);
    assert obj.values[0..] == obj.values;
  }

  lemma {:induction false} CompleteValueStays(v: Value, f: Field)
    requires CompleteValue(v, f)
    ensures TypedValue(v, f) && Filled(v, f) == v
    decreases f, 0
  {
    hide FilledObject, Complete, Typed;
    match f.kind
    case Plain(_, _, _) =>
    case Ref(m) => CompleteStays(v.obj, m);
    case Refs(m) => CompleteAllStay(v.objs, m);
  }

  lemma {:induction false} CompleteAllStay(objs: seq<Object>, model: Model)
    requires forall o | o in objs :: Complete(o, model)
    ensures (forall o | o in objs :: Typed(o, model)) && FilledAll(objs, model) == objs
    decreases model, 2, |objs|
  {
    hide FilledObject, Complete, Typed;
    if objs != [] {
      CompleteStays(objs[0], model);
      CompleteAllStay(objs[1..], model);
      assert objs == [objs[0]] + objs[1..];
    }
  }

  lemma {:induction false} CompleteFieldsStay(obj: Object, model: Model, i: nat)
    requires Typed(obj, model) && i <= |model.fields|
    requires forall j | 0 <= j < |model.fields| :: Filled(obj.values[j], model.fields[j]) == obj.values[j]
    ensures FilledFrom(obj, model, i) == obj.values[i..]
    decreases |model.fields| - i
  {
    hide Filled, TypedValue;
    if i < |model.fields| {
      CompleteFieldsStay(obj, model, i + 1);
      assert obj.values[i..] == [obj.values[i]] + obj.values[i + 1..];
    }
  }

  /** An object without missing values is read back as it is. */
  lemma CompleteComesBack(obj: Object, model: Model)
    requires Sound(model) && Complete(obj, model)
    ensures Serial(model, obj).Ok? && Deserial(model, Serial(model, obj).value) == Ok(obj)
  {
    hide Serial, Deserial, FilledObject, Complete, Sound;
    CompleteStays(obj, model);
    ObjectComesBack(obj, model);
  }

  // ----- missing values -----

  /** Nothing stands in for a missing plain value except the default, then a blank text. */
  lemma MissingPlain(root: Json, f: Field)
    requires f.kind.Plain? && f.path != [] && Open(root, f.path)
    ensures var r, write := SerializeField(root, f, Missing), f.kind.write;
            && r.Ok?
            && (!f.kind.fallback.JNull? ==> Get(r.value, f.path) == Ok(write(f.kind.fallback)))
            && (f.kind.fallback.JNull? && f.blankIfNull ==> Get(r.value, f.path) == Ok(write(Atom(""))))
            && (f.kind.fallback.JNull? && !f.blankIfNull && f.required ==> Get(r.value, f.path) == Ok(write(JNull)))
            && (f.kind.fallback.JNull? && !f.blankIfNull && !f.required ==> r.value == root)
  {
    hide Put, Get, Open;
    var write := f.kind.write;
    forall json | json in {write(f.kind.fallback), write(Atom("")), write(JNull)}
      ensures Put(root, f.path, json).Ok? && Get(Put(root, f.path, json).value, f.path) == Ok(json)
    {
      OpenIsWritable(root, f.path, json);
      PutGet(root, f.path, json);
    }
  }

  /** A missing object raises exactly when it is required; a missing list may be blank instead. */
  lemma MissingReference(root: Json, f: Field)
    requires f.path != [] && Absent(root, f.path)
    ensures f.kind.Ref? ==> SerializeField(root, f, Missing) == if f.required then Raise(AttributeError) else Ok(root)
    ensures f.kind.Refs? && !f.blankIfNull ==>
              SerializeField(root, f, Missing) == if f.required then Raise(TypeError) else Ok(root)
    ensures f.kind.Refs? && f.blankIfNull ==>
              SerializeField(root, f, Missing).Ok?
              && Get(SerializeField(root, f, Missing).value, f.path) == Ok(List([]))
  {
    hide Put, Get, Open, Absent, Append;
    AbsentIsOpen(root, f.path);
    AppendIsPut(root, f.path, []);
    OpenIsWritable(root, f.path, List([]));
    PutGet(root, f.path, List([]));
  }
}
