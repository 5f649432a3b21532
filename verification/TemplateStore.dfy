/** The face templates of one user: the stored form, the operations on the file, and their laws. */
module TemplateStore {
  import opened Options

  /** The store's own errors, and an exception of numpy or of a conversion that the store lets through. */
  datatype Error = NotFound | Empty | Schema(why: string) | SpaceMismatch | Foreign

  datatype Result<+T> = Ok(value: T) | Err(error: Error)

  /** An opaque float32. */
  datatype Scalar = Finite(value: real) | NonFinite

  type Vector = seq<Scalar>

  datatype Field =
    | Version | NextId | Templates
    | TId | Label | Created | Time | ModelId | Dim | Data
    | Unknown(name: string)

  /** `Numeral` is a string that reads as a number, and perhaps a whole one; otherwise it is a string like any other. */
  datatype Json =
    | Null
    | Bool(flag: bool)
    | Int(number: int)
    | Num(scalar: Scalar)
    | Str(text: string)
    | Numeral(text: string, scalar: Scalar, whole: Option<int>)
    | List(items: seq<Json>)
    | Obj(fields: map<Field, Json>)

  /** What the template file holds: nothing, text that is not JSON, or JSON. */
  datatype File = Missing | Garbage | Holds(json: Json)

  datatype Template = Template(id: int, title: string, created: int, modelId: string, embeddings: seq<Vector>)

  const STORE_VERSION := 2
  const LEGACY_MODEL_ID := "dlib-resnet-v1"

  // ----- vectors -----

  predicate AllFinite(v: Vector) {
    forall i :: 0 <= i < |v| ==> v[i].Finite?
  }

  /** A non-empty matrix of finite numbers. */
  predicate IsMatrix(rows: seq<Vector>) {
    && rows != [] && rows[0] != []
    && forall i :: 0 <= i < |rows| ==> |rows[i]| == |rows[0]| && AllFinite(rows[i])
  }

  predicate IsTagged(t: Template) {
    t.modelId != "" && IsMatrix(t.embeddings)
  }

  predicate AllTagged(ts: seq<Template>) {
    forall i :: 0 <= i < |ts| ==> IsTagged(ts[i])
  }

  /** The shape of the array numpy makes of a value, or None where the conversion raises. */
  function ShapeOf(j: Json): Option<seq<nat>> {
    match j
    case Str(_) => None
    case Obj(_) => None
    case List(items) =>
      if items == [] then Some([0])
      else
        var first := ShapeOf(items[0]);
        if first.None? || exists i :: 0 <= i < |items| && ShapeOf(items[i]) != first then None
        else Some([|items|] + first.value)
    case _ => Some([])
  }

  predicate IsNumber(j: Json) {
    ShapeOf(j) == Some([])
  }

  function ScalarOf(j: Json): Scalar
    requires IsNumber(j)
  {
    if j.Num? || j.Numeral? then j.scalar
    else if j.Int? then Finite(j.number as real)
    else if j.Bool? then Finite(if j.flag then 1.0 else 0.0)
    else NonFinite
  }

  function ScalarsOf(items: seq<Json>): Vector
    requires forall i :: 0 <= i < |items| ==> IsNumber(items[i])
  {
    seq(|items|, i requires 0 <= i < |items| => ScalarOf(items[i]))
  }

  lemma FlatListOfNumbers(j: Json)
    requires ShapeOf(j).Some? && |ShapeOf(j).value| == 1
    ensures j.List? && forall i :: 0 <= i < |j.items| ==> IsNumber(j.items[i])
  {
    if j.items != [] {
      assert |ShapeOf(j.items[0]).value| == 0;
      forall i | 0 <= i < |j.items| ensures IsNumber(j.items[i]) {
        assert ShapeOf(j.items[i]) == ShapeOf(j.items[0]);
      }
    }
  }

  /** One encoding: a flat, non-empty list of finite numbers; what is no array at all raises. */
  function VectorOf(j: Json): Result<Vector> {
    match ShapeOf(j)
    case None => Err(Foreign)
    case Some(shape) =>
      if |shape| != 1 then Err(Schema("not 1D"))
      else
        FlatListOfNumbers(j);
        var v := ScalarsOf(j.items);
        if v == [] then Err(Schema("empty"))
        else if !AllFinite(v) then Err(Schema("invalid values"))
        else Ok(v)
  }

  /** The first n encodings; all must have the dimension of the first. */
  function VectorsOf(data: seq<Json>, n: nat): Result<seq<Vector>>
    requires n <= |data|
  {
    if n == 0 then Ok([])
    else
      match VectorsOf(data, n - 1)
      case Err(e) => Err(e)
      case Ok(vs) =>
        match VectorOf(data[n - 1])
        case Err(e) => Err(e)
        case Ok(v) =>
          if vs != [] && |v| != |vs[0]| then Err(Schema("inconsistent dimension")) else Ok(vs + [v])
  }

  /** The loop that validates one template's encodings. */
  method ParseVectors(data: seq<Json>) returns (r: Result<seq<Vector>>)
    ensures r == ParsedVectors(data)
    ensures r.Ok? ==> IsMatrix(r.value) && |r.value| == |data|
  {
    var vectors: seq<Vector> := [];
    var expectedDim := -1;
    for position := 0 to |data|
      invariant VectorsOf(data, position) == Ok(vectors) && |vectors| == position
      invariant expectedDim == if vectors == [] then -1 else |vectors[0]|
      invariant vectors != [] ==> IsMatrix(vectors)
    {
      var arr := VectorOf(data[position]);
      if arr.Err? {
        FirstErrorStands(data, position + 1, |data|);
        return Err(arr.error);
      }
      if expectedDim == -1 {
        expectedDim := |arr.value|;
      } else if expectedDim != |arr.value| {
        FirstErrorStands(data, position + 1, |data|);
        return Err(Schema("inconsistent dimension"));
      }
      vectors := vectors + [arr.value];
    }
    if vectors == [] {
      return Err(Schema("no encodings"));
    }
    return Ok(vectors);
  }

  function ParsedVectors(data: seq<Json>): Result<seq<Vector>> {
    match VectorsOf(data, |data|)
    case Err(e) => Err(e)
    case Ok(vs) => if vs == [] then Err(Schema("no encodings")) else Ok(vs)
  }

  lemma {:induction false} FirstErrorStands(data: seq<Json>, i: nat, n: nat)
    requires i <= n <= |data| && VectorsOf(data, i).Err?
    ensures VectorsOf(data, n) == VectorsOf(data, i)
  {
    if i == n {
    } else {
      FirstErrorStands(data, i, n - 1);
    }
  }

  // ----- parsing -----

  function Get(fields: map<Field, Json>, f: Field): Json {
    if f in fields then fields[f] else Null
  }

  predicate IsText(j: Json) {
    j.Str? || j.Numeral?
  }

  /** int(): truncates a float, reads a whole number from a string, and raises otherwise. */
  function IntOf(j: Json): Option<int> {
    match j
    case Int(n) => Some(n)
    case Bool(b) => Some(if b then 1 else 0)
    case Num(Finite(x)) => Some(if x >= 0.0 then x.Floor else -((-x).Floor))
    case Numeral(_, _, whole) => whole
    case _ => None
  }

  function IntField(fields: map<Field, Json>, f: Field, default: int): Result<int> {
    if f !in fields then Ok(default)
    else
      match IntOf(fields[f])
      case Some(n) => Ok(n)
      case None => Err(Foreign)
  }

  /** The dimension an entry declares; a boolean is a whole number, too. */
  function DeclaredDim(fields: map<Field, Json>): Option<int> {
    match Get(fields, Dim)
    case Int(n) => Some(n)
    case Bool(b) => Some(if b then 1 else 0)
    case _ => None
  }

  function SpaceOf(model: Json, defaultModelId: string): string {
    if IsText(model) && model.text != "" then model.text else defaultModelId
  }

  function ParseTemplate(index: int, entry: Json, defaultModelId: string): Result<Template> {
    if !entry.Obj? then Err(Schema("not an object"))
    else if !Get(entry.fields, Data).List? then Err(Schema("missing list field 'data'"))
    else
      match ParsedVectors(Get(entry.fields, Data).items)
      case Err(e) => Err(e)
      case Ok(vectors) =>
        var dim, model := DeclaredDim(entry.fields), Get(entry.fields, ModelId);
        if dim.Some? && vectors != [] && dim.value != |vectors[0]| then Err(Schema("dim"))
        else if !model.Null? && !IsText(model) then Err(Schema("non-string 'model_id'"))
        else
          match IntField(entry.fields, TId, index)
          case Err(e) => Err(e)
          case Ok(id) =>
            match IntField(entry.fields, if Created in entry.fields then Created else Time, 0)
            case Err(e) => Err(e)
            case Ok(created) =>
              var title := if IsText(Get(entry.fields, Label)) then Get(entry.fields, Label).text else "";
              Ok(Template(id, title, created, SpaceOf(model, defaultModelId), vectors))
  }

  function ParseEntries(entries: seq<Json>, n: nat, defaultModelId: string): Result<seq<Template>>
    requires n <= |entries|
  {
    if n == 0 then Ok([])
    else
      match ParseEntries(entries, n - 1, defaultModelId)
      case Err(e) => Err(e)
      case Ok(ts) =>
        match ParseTemplate(n - 1, entries[n - 1], defaultModelId)
        case Err(e) => Err(e)
        case Ok(t) => Ok(ts + [t])
  }

  predicate IsVersion(j: Json) {
    j == Int(STORE_VERSION) || j == Num(Finite(STORE_VERSION as real))
  }

  function EntriesOf(payload: Json): Result<seq<Json>> {
    match payload
    case List(entries) => Ok(entries)
    case Obj(fields) =>
      if !IsVersion(Get(fields, Version)) then Err(Schema("version"))
      else if !Get(fields, Templates).List? then Err(Schema("'templates'"))
      else Ok(Get(fields, Templates).items)
    case _ => Err(Schema("neither object nor list"))
  }

  function Parse(payload: Json, defaultModelId: string): Result<seq<Template>> {
    match EntriesOf(payload)
    case Err(e) => Err(e)
    case Ok(entries) => if entries == [] then Err(Empty) else ParseEntries(entries, |entries|, defaultModelId)
  }

  function LoadAll(file: File): Result<seq<Template>> {
    match file
    case Missing => Err(NotFound)
    case Garbage => Err(Schema("not valid JSON"))
    case Holds(json) => Parse(json, LEGACY_MODEL_ID)
  }

  /** A file of one model whose only encoding holds a text that is no number. */
  function TextAmongTheData(text: string): File {
    Holds(List([Obj(map[Data := List([List([Str(text)])])])]))
  }

  lemma TextIsForeign(text: string)
    ensures LoadAll(TextAmongTheData(text)) == Err(Foreign)
  {
    var row := List([Str(text)]);
    assert ShapeOf(row.items[0]) == None;
    assert VectorOf(row) == Err(Foreign);
    assert VectorsOf([row], 0) == Ok([]);
    assert ParsedVectors([row]) == Err(Foreign);
    var entry := Obj(map[Data := List([row])]);
    assert ParseEntries([entry], 0, LEGACY_MODEL_ID) == Ok([]);
  }

  // ----- writing -----

  function VectorToJson(v: Vector): Json {
    List(seq(|v|, i requires 0 <= i < |v| => Num(v[i])))
  }

  function Serialize(t: Template): Json
    requires t.embeddings != []
  {
    Obj(map[TId := Int(t.id), Label := Str(t.title), Created := Int(t.created), ModelId := Str(t.modelId),
            Dim := Int(|t.embeddings[0]|),
            Data := List(seq(|t.embeddings|, i requires 0 <= i < |t.embeddings| => VectorToJson(t.embeddings[i])))])
  }

  /** A written entry leaves nothing to the reader's defaults: it declares each field under its present name. */
  lemma WrittenEntryDeclares(t: Template)
    requires t.embeddings != []
    ensures var fields := Serialize(t).fields;
            && fields.Keys == {TId, Label, Created, ModelId, Dim, Data}
            && IntOf(fields[TId]) == Some(t.id) && IntOf(fields[Created]) == Some(t.created)
            && fields[Label] == Str(t.title) && fields[ModelId] == Str(t.modelId)
            && DeclaredDim(fields) == Some(|t.embeddings[0]|)
  {
  }

  predicate Serializable(ts: seq<Template>) {
    forall i :: 0 <= i < |ts| ==> ts[i].embeddings != []
  }

  function Payload(nextId: int, ts: seq<Template>): Json
    requires Serializable(ts)
  {
    Obj(map[Version := Int(STORE_VERSION), NextId := Int(nextId),
            Templates := List(seq(|ts|, i requires 0 <= i < |ts| => Serialize(ts[i])))])
  }

  // ----- round trip -----

  lemma VectorRoundTrip(v: Vector)
    requires v != [] && AllFinite(v)
    ensures VectorOf(VectorToJson(v)) == Ok(v)
  {
    var j := VectorToJson(v);
    forall i | 0 <= i < |v| ensures ShapeOf(j.items[i]) == Some([]) {
      assert j.items[i] == Num(v[i]);
    }
    assert [|v|] + [] == [|v|];
    assert ShapeOf(j) == Some([|v|]);
    assert ScalarsOf(j.items) == v;
  }

  lemma {:induction false} VectorsRoundTrip(rows: seq<Vector>, data: seq<Json>, n: nat)
    requires IsMatrix(rows) && |data| == |rows| && n <= |rows|
    requires forall i :: 0 <= i < |rows| ==> data[i] == VectorToJson(rows[i])
    ensures VectorsOf(data, n) == Ok(rows[..n])
  {
    if n == 0 {
    } else {
      VectorsRoundTrip(rows, data, n - 1);
      VectorRoundTrip(rows[n - 1]);
      assert rows[..n] == rows[..n - 1] + [rows[n - 1]];
    }
  }

  lemma TemplateRoundTrip(t: Template, index: int, defaultModelId: string)
    requires IsTagged(t)
    ensures ParseTemplate(index, Serialize(t), defaultModelId) == Ok(t)
  {
    var data := Serialize(t).fields[Data].items;
    VectorsRoundTrip(t.embeddings, data, |t.embeddings|);
    assert t.embeddings[..|t.embeddings|] == t.embeddings;
  }

  lemma {:induction false} EntriesRoundTrip(ts: seq<Template>, entries: seq<Json>, n: nat, defaultModelId: string)
    requires AllTagged(ts) && |entries| == |ts| && n <= |ts|
    requires forall i :: 0 <= i < |ts| ==> entries[i] == Serialize(ts[i])
    ensures ParseEntries(entries, n, defaultModelId) == Ok(ts[..n])
  {
    hide ParseTemplate, Serialize, IsTagged;
    if n == 0 {
    } else {
      EntriesRoundTrip(ts, entries, n - 1, defaultModelId);
      TemplateRoundTrip(ts[n - 1], n - 1, defaultModelId);
      assert ts[..n] == ts[..n - 1] + [ts[n - 1]];
    }
  }

  lemma TaggedIsSerializable(ts: seq<Template>)
    requires AllTagged(ts)
    ensures Serializable(ts)
  {
  }

  /** What the store writes it reads back unchanged, whatever space the reader assumes for untagged templates. */
  lemma StoreRoundTrip(nextId: int, ts: seq<Template>, defaultModelId: string)
    requires AllTagged(ts)
    ensures Serializable(ts)
    ensures Parse(Payload(nextId, ts), defaultModelId) == if ts == [] then Err(Empty) else Ok(ts)
  {
    hide Serialize, ParseEntries, IsTagged;
    TaggedIsSerializable(ts);
    var entries := Payload(nextId, ts).fields[Templates].items;
    EntriesRoundTrip(ts, entries, |ts|, defaultModelId);
    assert ts[..|ts|] == ts;
  }

  /** Whatever parses was validated: every template is a matrix, tagged when the reader's default is. */
  lemma {:induction false} ParsedIsTagged(entries: seq<Json>, n: nat, defaultModelId: string)
    requires n <= |entries| && defaultModelId != "" && ParseEntries(entries, n, defaultModelId).Ok?
    ensures AllTagged(ParseEntries(entries, n, defaultModelId).value)
  {
    if n == 0 {
    } else {
      ParsedIsTagged(entries, n - 1, defaultModelId);
      var data := Get(entries[n - 1].fields, Data).items;
      ParsedIsMatrix(data, |data|);
    }
  }

  lemma {:induction false} ParsedIsMatrix(data: seq<Json>, n: nat)
    requires n <= |data| && VectorsOf(data, n).Ok?
    ensures VectorsOf(data, n).value != [] ==> IsMatrix(VectorsOf(data, n).value)
  {
    if n == 0 {
    } else {
      ParsedIsMatrix(data, n - 1);
    }
  }

  lemma {:induction false} ParsedCount(entries: seq<Json>, n: nat, defaultModelId: string)
    requires n <= |entries| && ParseEntries(entries, n, defaultModelId).Ok?
    ensures |ParseEntries(entries, n, defaultModelId).value| == n
    ensures forall i :: 0 <= i < n ==>
              ParseTemplate(i, entries[i], defaultModelId) == Ok(ParseEntries(entries, n, defaultModelId).value[i])
  {
    hide ParseTemplate;
    if n == 0 {
    } else {
      ParsedCount(entries, n - 1, defaultModelId);
    }
  }

  lemma LoadedIsNotEmpty(file: File)
    ensures LoadAll(file).Ok? ==> LoadAll(file).value != []
  {
    hide ParseEntries, EntriesOf;
    if LoadAll(file).Ok? {
      var entries := EntriesOf(file.json).value;
      ParsedCount(entries, |entries|, LEGACY_MODEL_ID);
    }
  }

  lemma LoadedIsTagged(file: File)
    requires LoadAll(file).Ok?
    ensures AllTagged(LoadAll(file).value)
  {
    var entries := EntriesOf(file.json).value;
    ParsedIsTagged(entries, |entries|, LEGACY_MODEL_ID);
  }

  lemma {:induction false} ParsedRows(data: seq<Json>, n: nat)
    requires n <= |data| && VectorsOf(data, n).Ok?
    ensures |VectorsOf(data, n).value| == n
    ensures forall i :: 0 <= i < n ==> VectorOf(data[i]) == Ok(VectorsOf(data, n).value[i])
  {
    if n == 0 {
    } else {
      ParsedRows(data, n - 1);
    }
  }

  /**
   * An entry that parses says what the template holds: every encoding in order, a dimension that agrees, the
   * id or position.
   */
  lemma ParsedEntryIsFaithful(index: int, entry: Json, defaultModelId: string)
    requires ParseTemplate(index, entry, defaultModelId).Ok?
    ensures entry.Obj? && Get(entry.fields, Data).List?
    ensures var t, data := ParseTemplate(index, entry, defaultModelId).value, Get(entry.fields, Data).items;
            && IsMatrix(t.embeddings) && |t.embeddings| == |data|
            && (forall i :: 0 <= i < |data| ==> VectorOf(data[i]) == Ok(t.embeddings[i]))
            && (DeclaredDim(entry.fields).Some? ==> DeclaredDim(entry.fields).value == |t.embeddings[0]|)
            && (if TId in entry.fields then IntOf(entry.fields[TId]) == Some(t.id) else t.id == index)
            && var model := Get(entry.fields, ModelId);
               if IsText(model) && model.text != "" then t.modelId == model.text
               else (model.Null? || IsText(model)) && t.modelId == defaultModelId
  {
    var data := Get(entry.fields, Data).items;
    ParsedRows(data, |data|);
    ParsedIsMatrix(data, |data|);
  }

  // ----- exactly what parses -----

  /** An encoding parses if and only if it is a flat, non-empty list of finite numbers, and gives those. */
  lemma VectorParsesExactly(j: Json, v: Vector)
    ensures VectorOf(j) == Ok(v) <==>
              && j.List? && |j.items| == |v| > 0
              && forall i :: 0 <= i < |v| ==> IsNumber(j.items[i]) && ScalarOf(j.items[i]) == v[i] && v[i].Finite?
  {
    if VectorOf(j).Ok? {
      FlatListOfNumbers(j);
      LengthOfShape(j);
    }
    if && j.List? && |j.items| == |v| > 0
       && forall i :: 0 <= i < |v| ==> IsNumber(j.items[i]) && ScalarOf(j.items[i]) == v[i] && v[i].Finite?
    {
      assert ShapeOf(j.items[0]) == Some([]);
      assert [|j.items|] + [] == [|j.items|];
      assert ScalarsOf(j.items) == v;
    }
  }

  lemma LengthOfShape(j: Json)
    requires j.List? && ShapeOf(j).Some?
    ensures ShapeOf(j).value[0] == |j.items|
  {
  }

  predicate SameLengths(vs: seq<Vector>) {
    forall i :: 0 <= i < |vs| ==> |vs[i]| == |vs[0]|
  }

  lemma {:induction false} RowsParseExactly(data: seq<Json>, n: nat, vs: seq<Vector>)
    requires n <= |data|
    ensures VectorsOf(data, n) == Ok(vs) <==>
              |vs| == n && SameLengths(vs) && forall i :: 0 <= i < n ==> VectorOf(data[i]) == Ok(vs[i])
  {
    hide VectorOf;
    if n == 0 {
    } else {
      if |vs| == n {
        RowsParseExactly(data, n - 1, vs[..n - 1]);
        assert vs == vs[..n - 1] + [vs[n - 1]];
      }
      if VectorsOf(data, n - 1).Ok? {
        RowsParseExactly(data, n - 1, VectorsOf(data, n - 1).value);
      }
    }
  }

  /** The field's number if the field is there, and the default otherwise. */
  predicate IsNumberOr(fields: map<Field, Json>, f: Field, default: int, n: int) {
    if f in fields then IntOf(fields[f]) == Some(n) else n == default
  }

  /** What an entry says of a template, field by field; `position` is its place in the file. */
  predicate Describes(entry: Json, position: int, defaultModelId: string, t: Template) {
    && entry.Obj? && Get(entry.fields, Data).List?
    && var data, model := Get(entry.fields, Data).items, Get(entry.fields, ModelId);
       && |data| == |t.embeddings| > 0 && SameLengths(t.embeddings)
       && (forall i :: 0 <= i < |data| ==> VectorOf(data[i]) == Ok(t.embeddings[i]))
       && (DeclaredDim(entry.fields).Some? ==> DeclaredDim(entry.fields).value == |t.embeddings[0]|)
       && (model.Null? || IsText(model))
       && t.modelId == (if IsText(model) && model.text != "" then model.text else defaultModelId)
       && IsNumberOr(entry.fields, TId, position, t.id)
       && (if Created in entry.fields then IntOf(entry.fields[Created]) == Some(t.created)
           else IsNumberOr(entry.fields, Time, 0, t.created))
       && t.title == (if IsText(Get(entry.fields, Label)) then Get(entry.fields, Label).text else "")
  }

  /** An entry parses to exactly the template it describes, and not at all if it describes none. */
  lemma EntryParsesExactly(entry: Json, position: int, defaultModelId: string, t: Template)
    ensures ParseTemplate(position, entry, defaultModelId) == Ok(t) <==> Describes(entry, position, defaultModelId, t)
  {
    hide VectorOf, VectorsOf, SameLengths, IntOf, DeclaredDim;
    if entry.Obj? && Get(entry.fields, Data).List? {
      var data := Get(entry.fields, Data).items;
      RowsParseExactly(data, |data|, t.embeddings);
      if VectorsOf(data, |data|).Ok? {
        RowsParseExactly(data, |data|, VectorsOf(data, |data|).value);
      }
    }
  }

  /** The two forms of a model file: an object of the present version with its templates, and a bare list. */
  predicate IsStoreOf(payload: Json, entries: seq<Json>) {
    || payload == List(entries)
    || (payload.Obj? && Version in payload.fields && Templates in payload.fields
        && (payload.fields[Version] == Int(2) || payload.fields[Version] == Num(Finite(2.0)))
        && payload.fields[Templates] == List(entries))
  }

  /**
   * A file parses if and only if it has one of the two forms, of this version, with at least one entry, and
   * each entry describes its template; it counts as empty exactly when it has no entry.
   */
  lemma FileParsesExactly(payload: Json, defaultModelId: string, ts: seq<Template>)
    ensures Parse(payload, defaultModelId) == Ok(ts) <==>
              exists entries :: && IsStoreOf(payload, entries) && |entries| == |ts| > 0
                                && forall i :: 0 <= i < |ts| ==> Describes(entries[i], i, defaultModelId, ts[i])
    ensures Parse(payload, defaultModelId) == Err(Empty) <==> IsStoreOf(payload, [])
  {
    hide ParseTemplate, ParseEntries, Describes, IsStoreOf, EntriesOf;
    EntriesExactly(payload);
    if EntriesOf(payload).Ok? {
      var entries := EntriesOf(payload).value;
      assert forall other :: IsStoreOf(payload, other) ==> other == entries;
      EntriesDescribe(entries, |entries|, defaultModelId, ts);
      NotEmptyError(entries, |entries|, defaultModelId);
      if entries != [] && ParseEntries(entries, |entries|, defaultModelId) == Ok(ts) {
        assert IsStoreOf(payload, entries) && |entries| == |ts| > 0;
      }
    }
  }

  /** What loads for managing models: an entry without a space is taken to be of the oldest recognizer. */
  lemma LoadsAllExactly(file: File, ts: seq<Template>)
    ensures LoadAll(file) == Ok(ts) <==>
              file.Holds? && exists entries ::
                && IsStoreOf(file.json, entries) && |entries| == |ts| > 0
                && forall i :: 0 <= i < |ts| ==> Describes(entries[i], i, "dlib-resnet-v1", ts[i])
    ensures LoadAll(file) == Err(NotFound) <==> file.Missing?
    ensures file.Garbage? ==> LoadAll(file).Err? && LoadAll(file).error.Schema?
  {
    hide Parse, Describes, IsStoreOf;
    if file.Holds? {
      FileParsesExactly(file.json, LEGACY_MODEL_ID, ts);
      NeverNotFound(file.json, LEGACY_MODEL_ID);
    }
  }

  lemma NeverNotFound(payload: Json, defaultModelId: string)
    ensures Parse(payload, defaultModelId) != Err(NotFound)
  {
    hide ParseEntries, EntriesOf;
    EntriesExactly(payload);
    if EntriesOf(payload).Ok? {
      NotEmptyError(EntriesOf(payload).value, |EntriesOf(payload).value|, defaultModelId);
    }
  }

  lemma EntriesExactly(payload: Json)
    ensures forall entries :: IsStoreOf(payload, entries) <==> EntriesOf(payload) == Ok(entries)
    ensures EntriesOf(payload).Err? ==> EntriesOf(payload).error.Schema?
  {
  }

  lemma {:induction false} EntriesDescribe(entries: seq<Json>, n: nat, defaultModelId: string, ts: seq<Template>)
    requires n <= |entries|
    ensures ParseEntries(entries, n, defaultModelId) == Ok(ts) <==>
              |ts| == n && forall i :: 0 <= i < n ==> Describes(entries[i], i, defaultModelId, ts[i])
  {
    hide ParseTemplate, Describes;
    if n == 0 {
    } else {
      if |ts| == n {
        EntriesDescribe(entries, n - 1, defaultModelId, ts[..n - 1]);
        EntryParsesExactly(entries[n - 1], n - 1, defaultModelId, ts[n - 1]);
        assert ts == ts[..n - 1] + [ts[n - 1]];
      }
      if ParseEntries(entries, n - 1, defaultModelId).Ok? {
        EntriesDescribe(entries, n - 1, defaultModelId, ParseEntries(entries, n - 1, defaultModelId).value);
      }
    }
  }

  lemma {:induction false} NotEmptyError(entries: seq<Json>, n: nat, defaultModelId: string)
    requires n <= |entries|
    ensures ParseEntries(entries, n, defaultModelId) != Err(Empty)
    ensures ParseEntries(entries, n, defaultModelId) != Err(NotFound)
  {
    if n == 0 {
    } else {
      NotEmptyError(entries, n - 1, defaultModelId);
      EntryErrorIsItsOwn(n - 1, entries[n - 1], defaultModelId);
    }
  }

  lemma EntryErrorIsItsOwn(position: int, entry: Json, defaultModelId: string)
    ensures ParseTemplate(position, entry, defaultModelId) != Err(Empty)
    ensures ParseTemplate(position, entry, defaultModelId) != Err(NotFound)
  {
    if entry.Obj? && Get(entry.fields, Data).List? {
      var data := Get(entry.fields, Data).items;
      RowErrorIsItsOwn(data, |data|);
    }
  }

  lemma {:induction false} RowErrorIsItsOwn(data: seq<Json>, n: nat)
    requires n <= |data|
    ensures VectorsOf(data, n) != Err(Empty) && VectorsOf(data, n) != Err(NotFound)
  {
    if n == 0 {
    } else {
      RowErrorIsItsOwn(data, n - 1);
    }
  }

  // ----- operations on the file -----

  function Max(a: int, b: int): int {
    if a >= b then a else b
  }

  /** One past the highest id. */
  function NextIdOf(ts: seq<Template>): (r: int)
    ensures forall i :: 0 <= i < |ts| ==> ts[i].id < r
    ensures if ts == [] then r == 0 else exists i :: 0 <= i < |ts| && ts[i].id + 1 == r
  {
    if ts == [] then 0
    else
      var n := |ts| - 1;
      var before := NextIdOf(ts[..n]);
      if n == 0 || ts[n].id + 1 > before then ts[n].id + 1 else before
  }

  /** The high-water mark in the file; anything unusable counts as 0. */
  function StoredNextId(file: File): int {
    if file.Holds? && file.json.Obj? && Get(file.json.fields, NextId).Int? && Get(file.json.fields, NextId).number > 0
    then Get(file.json.fields, NextId).number
    else 0
  }

  /** The mark is the whole number in the field, if it is above 0; a boolean, or any other form of file, has none. */
  lemma MarkIsTheField(file: File, n: int)
    requires n > 0
    ensures StoredNextId(file) == n <==>
              file.Holds? && file.json.Obj? && NextId in file.json.fields && file.json.fields[NextId] == Int(n)
    ensures StoredNextId(file) >= 0
  {
  }

  function PeekNextId(file: File, ts: seq<Template>): int {
    Max(NextIdOf(ts), StoredNextId(file))
  }

  function Saved(file: File, ts: seq<Template>): File
    requires Serializable(ts)
  {
    Holds(Payload(Max(NextIdOf(ts), StoredNextId(file)), ts))
  }

  function LoadOrEmpty(file: File): Result<seq<Template>> {
    match LoadAll(file)
    case Err(NotFound) => Ok([])
    case Err(Empty) => Ok([])
    case other => other
  }

  /** What the caller supplies for a new template. `rows` is an array: all rows have one length. */
  datatype Draft = Draft(modelId: string, title: string, rows: seq<Vector>, created: int)

  predicate IsArray(rows: seq<Vector>) {
    forall i :: 0 <= i < |rows| ==> |rows[i]| == |rows[0]|
  }

  function Build(id: int, d: Draft): Result<Template> {
    if d.rows == [] || d.rows[0] == [] then Err(Schema("expected a non-empty array"))
    else if exists i :: 0 <= i < |d.rows| && !AllFinite(d.rows[i]) then Err(Schema("non-finite values"))
    else Ok(Template(id, d.title, d.created, d.modelId, d.rows))
  }

  /** The templates of every other space, in order. */
  function Others(ts: seq<Template>, modelId: string): (r: seq<Template>)
    ensures AllTagged(ts) ==> AllTagged(r)
  {
    if ts == [] then []
    else
      var n := |ts| - 1;
      Others(ts[..n], modelId) + if ts[n].modelId != modelId then [ts[n]] else []
  }

  /** append (`replace` false) and replace_space (`replace` true): the new template and the new file. */
  function Add(file: File, d: Draft, replace: bool): (Result<Template>, File) {
    match LoadOrEmpty(file)
    case Err(e) => (Err(e), file)
    case Ok(existing) =>
      match Build(PeekNextId(file, existing), d)
      case Err(e) => (Err(e), file)
      case Ok(t) =>
        LoadedOrEmptyIsTagged(file);
        (Ok(t), Saved(file, (if replace then Others(existing, d.modelId) else existing) + [t]))
  }

  lemma LoadedOrEmptyIsTagged(file: File)
    ensures LoadOrEmpty(file).Ok? ==> AllTagged(LoadOrEmpty(file).value)
  {
    if LoadAll(file).Ok? {
      LoadedIsTagged(file);
    }
  }

  function Find(ts: seq<Template>, id: int): Option<nat> {
    FindFrom(ts, id, 0)
  }

  function FindFrom(ts: seq<Template>, id: int, i: nat): (r: Option<nat>)
    requires i <= |ts|
    ensures r.Some? ==> i <= r.value < |ts| && ts[r.value].id == id
    ensures forall j :: i <= j < (if r.Some? then r.value else |ts|) ==> ts[j].id != id
    decreases |ts| - i
  {
    if i == |ts| then None else if ts[i].id == id then Some(i) else FindFrom(ts, id, i + 1)
  }

  class TemplateFile {
    var file: File

    constructor (contents: File)
      ensures file == contents
    {
      file := contents;
    }

    /** Replaces the file in one step; the mark never goes down. */
    method Save(ts: seq<Template>)
      requires Serializable(ts)
      modifies this
      ensures file == Saved(old(file), ts)
    {
      var nextId := Max(NextIdOf(ts), StoredNextId(file));
      file := Holds(Payload(nextId, ts));
    }

    method Delete() returns (r: Result<()>)
      modifies this
      ensures file == Missing
      ensures r == if old(file).Missing? then Err(NotFound) else Ok(())
    {
      if file.Missing? {
        return Err(NotFound);
      }
      file := Missing;
      return Ok(());
    }

    method Append(d: Draft) returns (r: Result<Template>)
      modifies this
      ensures (r, file) == Add(old(file), d, false)
    {
      var existing := LoadOrEmpty(file);
      if existing.Err? {
        return Err(existing.error);
      }
      r := Build(PeekNextId(file, existing.value), d);
      if r.Ok? {
        LoadedOrEmptyIsTagged(file);
        Save(existing.value + [r.value]);
      }
    }

    method ReplaceSpace(d: Draft) returns (r: Result<Template>)
      modifies this
      ensures (r, file) == Add(old(file), d, true)
    {
      var existing := LoadOrEmpty(file);
      if existing.Err? {
        return Err(existing.error);
      }
      r := Build(PeekNextId(file, existing.value), d);
      if r.Ok? {
        LoadedOrEmptyIsTagged(file);
        var kept := Others(existing.value, d.modelId);
        Save(kept + [r.value]);
      }
    }
  }

  // ----- what the operations leave in the file -----

  lemma SavedReadsBack(file: File, ts: seq<Template>)
    requires AllTagged(ts)
    ensures Serializable(ts)
    ensures LoadAll(Saved(file, ts)) == if ts == [] then Err(Empty) else Ok(ts)
    ensures LoadOrEmpty(Saved(file, ts)) == Ok(ts)
    ensures StoredNextId(Saved(file, ts)) == Max(Max(NextIdOf(ts), StoredNextId(file)), 0)
  {
    StoreRoundTrip(Max(NextIdOf(ts), StoredNextId(file)), ts, LEGACY_MODEL_ID);
  }

  /** Saving what was loaded loses nothing, whoever wrote the file before. */
  lemma ResavingKeepsTemplates(file: File)
    requires LoadAll(file).Ok? && LoadAll(file).value != []
    ensures Serializable(LoadAll(file).value)
    ensures LoadAll(Saved(file, LoadAll(file).value)) == LoadAll(file)
  {
    hide Parse, Payload, NextIdOf, StoredNextId;
    LoadedIsTagged(file);
    SavedReadsBack(file, LoadAll(file).value);
  }

  lemma BuiltIsTagged(id: int, d: Draft)
    requires d.modelId != "" && IsArray(d.rows) && Build(id, d).Ok?
    ensures IsTagged(Build(id, d).value) && Build(id, d).value.id == id && Build(id, d).value.modelId == d.modelId
  {
  }

  /**
   * A new template is stored exactly when the file can be read or counts as empty, and the array holds at least one
   * number and only finite ones; it is then what the caller supplied, under an id above all others and not
   * below the mark. Otherwise the file is as it was.
   */
  lemma AddsExactlyWhen(file: File, d: Draft, replace: bool)
    ensures var (r, after) := Add(file, d, replace);
            && (r.Ok? <==> && LoadOrEmpty(file).Ok? && |d.rows| > 0 && |d.rows[0]| > 0
                           && forall v :: v in d.rows ==> AllFinite(v))
            && (r.Ok? ==> && r.value == Template(r.value.id, d.title, d.created, d.modelId, d.rows)
                          && (forall t :: t in LoadOrEmpty(file).value ==> t.id < r.value.id)
                          && r.value.id >= StoredNextId(file))
            && (r.Err? ==> after == file)
            && (LoadOrEmpty(file).Err? ==> r == Err(LoadOrEmpty(file).error))
            && (LoadOrEmpty(file).Ok? && r.Err? ==> r.error.Schema?)
  {
    hide LoadAll, AllFinite, Saved, StoredNextId, Others;
    if forall v :: v in d.rows ==> AllFinite(v) {
      assert forall i :: 0 <= i < |d.rows| ==> d.rows[i] in d.rows;
    }
  }

  /** After an append the file holds the old templates unchanged and the new one last. */
  lemma AppendAddsLast(file: File, d: Draft)
    requires d.modelId != "" && IsArray(d.rows) && Add(file, d, false).0.Ok?
    ensures var (r, after) := Add(file, d, false);
            LoadAll(after) == Ok(LoadOrEmpty(file).value + [r.value])
  {
    LoadedOrEmptyIsTagged(file);
    var existing := LoadOrEmpty(file).value;
    BuiltIsTagged(PeekNextId(file, existing), d);
    SavedReadsBack(file, existing + [Add(file, d, false).0.value]);
  }

  /** After a re-enrollment the named space holds exactly the new template; every other space is kept, in order. */
  lemma ReplaceKeepsOtherSpaces(file: File, d: Draft)
    requires d.modelId != "" && IsArray(d.rows) && Add(file, d, true).0.Ok?
    ensures var (r, after) := Add(file, d, true);
            var before := LoadOrEmpty(file).value;
            && LoadAll(after) == Ok(Others(before, d.modelId) + [r.value])
            && r.value.modelId == d.modelId
            && forall space :: space != d.modelId ==>
                 InSpace(LoadAll(after).value, space) == InSpace(before, space)
    ensures InSpace(LoadAll(Add(file, d, true).1).value, d.modelId) == [Add(file, d, true).0.value]
  {
    LoadedOrEmptyIsTagged(file);
    var before, t := LoadOrEmpty(file).value, Add(file, d, true).0.value;
    var kept := Others(before, d.modelId);
    BuiltIsTagged(PeekNextId(file, before), d);
    SavedReadsBack(file, kept + [t]);
    forall space ensures InSpace(kept + [t], space) ==
                         if space == d.modelId then [t] else InSpace(before, space)
    {
      InSpaceSnoc(kept, t, space);
      OthersBySpace(before, d.modelId, space);
    }
  }

  /** The templates of one space, in order. */
  function InSpace(ts: seq<Template>, space: string): seq<Template>
  {
    if ts == [] then []
    else
      var n := |ts| - 1;
      InSpace(ts[..n], space) + if ts[n].modelId == space then [ts[n]] else []
  }

  lemma InSpaceSnoc(ts: seq<Template>, t: Template, space: string)
    ensures InSpace(ts + [t], space) == InSpace(ts, space) + if t.modelId == space then [t] else []
  {
    assert (ts + [t])[..|ts|] == ts;
  }

  lemma {:induction false} OthersBySpace(ts: seq<Template>, modelId: string, space: string)
    ensures InSpace(Others(ts, modelId), space) == if space == modelId then [] else InSpace(ts, space)
  {
    hide IsTagged, AllTagged;
    if ts == [] {
    } else {
      var n := |ts| - 1;
      OthersBySpace(ts[..n], modelId, space);
      if ts[n].modelId != modelId {
        InSpaceSnoc(Others(ts[..n], modelId), ts[n], space);
      } else {
        assert Others(ts, modelId) == Others(ts[..n], modelId);
      }
    }
  }
}
