/** From a stored file to an accepted face: stacking, the nearest row, and the template it names. */
module Matching {
  import opened TemplateStore
  import opened Options

  // ----- stacking -----

  function Dim(t: Template): nat
    requires IsMatrix(t.embeddings)
  {
    |t.embeddings[0]|
  }

  predicate AllMatrices(ts: seq<Template>) {
    forall i :: 0 <= i < |ts| ==> IsMatrix(ts[i].embeddings)
  }

  predicate SameDim(ts: seq<Template>)
    requires AllMatrices(ts)
  {
    forall i :: 0 <= i < |ts| ==> Dim(ts[i]) == Dim(ts[0])
  }

  function Rows(ts: seq<Template>): seq<Vector> {
    if ts == [] then [] else Rows(ts[..|ts| - 1]) + ts[|ts| - 1].embeddings
  }

  /** Each template's position, once for each of its rows. */
  function Owners(ts: seq<Template>): (owners: seq<nat>)
    ensures |owners| == |Rows(ts)|
  {
    if ts == [] then []
    else
      var n := |ts| - 1;
      Owners(ts[..n]) + seq(|ts[n].embeddings|, _ => n)
  }

  function Stacked(ts: seq<Template>): Result<(seq<Vector>, seq<nat>)>
    requires AllMatrices(ts)
  {
    if SameDim(ts) then Ok((Rows(ts), Owners(ts))) else Err(Schema("inconsistent dimension"))
  }

  method Stack(ts: seq<Template>) returns (r: Result<(seq<Vector>, seq<nat>)>)
    requires ts != [] && AllMatrices(ts)
    ensures r == Stacked(ts)
  {
    var expectedDim := Dim(ts[0]);
    for i := 1 to |ts|
      invariant forall k :: 0 <= k < i ==> Dim(ts[k]) == expectedDim
    {
      if Dim(ts[i]) != expectedDim {
        return Err(Schema("inconsistent dimension"));
      }
    }
    return Ok((Rows(ts), Owners(ts)));
  }

  /** How many rows come before template k's. */
  function Offset(ts: seq<Template>, k: nat): nat
    requires k <= |ts|
  {
    |Rows(ts[..k])|
  }

  /** Every encoding of every template is the row at its template's offset, owned by that template. */
  lemma {:induction false} EncodingHasItsRow(ts: seq<Template>, k: nat, j: nat)
    requires k < |ts| && j < |ts[k].embeddings|
    ensures var row := Offset(ts, k) + j;
            row < |Rows(ts)| && Rows(ts)[row] == ts[k].embeddings[j] && Owners(ts)[row] == k
  {
    var n := |ts| - 1;
    if k == n {
    } else {
      EncodingHasItsRow(ts[..n], k, j);
      assert ts[..n][..k] == ts[..k];
    }
  }

  /** Every row is an encoding of the template that owns it. */
  lemma {:induction false} RowHasItsOwner(ts: seq<Template>, row: nat)
    requires row < |Rows(ts)|
    ensures var k := Owners(ts)[row];
            && k < |ts|
            && Offset(ts, k) <= row < Offset(ts, k) + |ts[k].embeddings|
            && Rows(ts)[row] == ts[k].embeddings[row - Offset(ts, k)]
  {
    var n := |ts| - 1;
    if row >= |Rows(ts[..n])| {
    } else {
      RowHasItsOwner(ts[..n], row);
      assert ts[..n][..Owners(ts)[row]] == ts[..Owners(ts)[row]];
    }
  }

  lemma {:induction false} SomeRow(ts: seq<Template>)
    requires AllMatrices(ts) && ts != []
    ensures Rows(ts) != []
  {
    EncodingHasItsRow(ts, 0, 0);
  }

  // ----- loading one space -----

  datatype TemplateSet = TemplateSet(modelId: string, templates: seq<Template>, matrix: seq<Vector>, owners: seq<nat>) {
    predicate Valid() {
      |owners| == |matrix| && forall r :: 0 <= r < |owners| ==> owners[r] < |templates|
    }

    function OwnerOf(row: int): Option<Template>
      requires Valid()
    {
      if 0 <= row < |owners| then Some(templates[owners[row]]) else None
    }
  }

  /** Every template in the file; an untagged one is taken to be in the reader's space. */
  function ParseFile(file: File, modelId: string): Result<seq<Template>> {
    match file
    case Missing => Err(NotFound)
    case Garbage => Err(Schema("not valid JSON"))
    case Holds(json) => Parse(json, modelId)
  }

  function Load(file: File, modelId: string): Result<TemplateSet> {
    match ParseFile(file, modelId)
    case Err(e) => Err(e)
    case Ok(ts) =>
      var matching := InSpace(ts, modelId);
      ParsedAreMatrices(file, modelId);
      InSpaceIsPart(ts, modelId);
      if matching == [] then Err(SpaceMismatch)
      else
        match Stacked(matching)
        case Err(e) => Err(e)
        case Ok((matrix, owners)) => Ok(TemplateSet(modelId, matching, matrix, owners))
  }

  lemma {:induction false} EntriesAreMatrices(entries: seq<Json>, n: nat, modelId: string)
    requires n <= |entries| && ParseEntries(entries, n, modelId).Ok?
    ensures AllMatrices(ParseEntries(entries, n, modelId).value)
  {
    if n == 0 {
    } else {
      EntriesAreMatrices(entries, n - 1, modelId);
      var data := Get(entries[n - 1].fields, Data).items;
      ParsedIsMatrix(data, |data|);
    }
  }

  lemma ParsedAreMatrices(file: File, modelId: string)
    ensures ParseFile(file, modelId).Ok? ==> AllMatrices(ParseFile(file, modelId).value)
  {
    if ParseFile(file, modelId).Ok? {
      var entries := EntriesOf(file.json).value;
      EntriesAreMatrices(entries, |entries|, modelId);
    }
  }

  /** A space's templates are exactly the file's templates tagged with it. */
  lemma {:induction false} InSpaceIsPart(ts: seq<Template>, space: string)
    ensures AllMatrices(ts) ==> AllMatrices(InSpace(ts, space))
    ensures forall t :: t in InSpace(ts, space) <==> t in ts && t.modelId == space
  {
    if ts == [] {
    } else {
      var n := |ts| - 1;
      InSpaceIsPart(ts[..n], space);
      assert ts == ts[..n] + [ts[n]];
    }
  }

  lemma LoadedIsValid(file: File, modelId: string)
    requires Load(file, modelId).Ok?
    ensures ParseFile(file, modelId).Ok?
    ensures var found := Load(file, modelId).value;
            && found.modelId == modelId && found.Valid() && found.matrix != []
            && found.matrix == Rows(found.templates) && found.owners == Owners(found.templates)
            && found.templates == InSpace(ParseFile(file, modelId).value, modelId)
  {
    hide ParseFile, InSpace;
    var found := Load(file, modelId).value;
    ParsedAreMatrices(file, modelId);
    InSpaceIsPart(ParseFile(file, modelId).value, modelId);
    SomeRow(found.templates);
    forall r | 0 <= r < |found.owners| ensures found.owners[r] < |found.templates| {
      RowHasItsOwner(found.templates, r);
    }
  }

  lemma StackedExactly(ts: seq<Template>)
    requires AllMatrices(ts)
    ensures Stacked(ts).Ok? <==>
              forall t, u :: t in ts && u in ts ==> |t.embeddings[0]| == |u.embeddings[0]|
    ensures Stacked(ts).Ok? ==> Stacked(ts).value == (Rows(ts), Owners(ts))
    ensures Stacked(ts).Err? ==> Stacked(ts).error.Schema?
  {
    hide Rows, Owners;
    if forall t, u :: t in ts && u in ts ==> |t.embeddings[0]| == |u.embeddings[0]| {
      forall i | 0 <= i < |ts| ensures Dim(ts[i]) == Dim(ts[0]) {
        assert ts[i] in ts && ts[0] in ts;
      }
    }
  }

  /**
   * A space loads if and only if the file parses, some template is of the space, and all of the space have
   * encodings of one length; if none is of the space that is the error, and otherwise a mixed length.
   */
  lemma LoadsExactlyWhen(file: File, modelId: string)
    requires ParseFile(file, modelId).Ok?
    ensures var ts := ParseFile(file, modelId).value;
            && AllMatrices(ts)
            && (Load(file, modelId) == Err(SpaceMismatch) <==> forall t :: t in ts ==> t.modelId != modelId)
            && (Load(file, modelId).Ok? <==>
                  && (exists t :: t in ts && t.modelId == modelId)
                  && forall t, u :: t in ts && u in ts && t.modelId == u.modelId == modelId ==>
                       |t.embeddings[0]| == |u.embeddings[0]|)
            && (Load(file, modelId).Err? ==>
                  Load(file, modelId).error.SpaceMismatch? || Load(file, modelId).error.Schema?)
  {
    hide ParseFile, InSpace, Rows, Owners, Stacked, IsMatrix;
    var ts := ParseFile(file, modelId).value;
    ParsedAreMatrices(file, modelId);
    InSpaceIsPart(ts, modelId);
    StackedExactly(InSpace(ts, modelId));
    if InSpace(ts, modelId) != [] {
      assert InSpace(ts, modelId)[0] in InSpace(ts, modelId);
    }
    MatricesHaveRows(ts);
  }

  lemma MatricesHaveRows(ts: seq<Template>)
    requires AllMatrices(ts)
    ensures forall t :: t in ts ==> |t.embeddings| > 0
  {
  }

  // ----- the nearest row -----

  /** A float distance, ordered as argmin orders it: not-a-number first, infinity last. */
  datatype Distance = NaN | Number(value: real) | Infinite

  predicate Below(a: Distance, b: Distance) {
    match (a, b)
    case (NaN, _) => !b.NaN?
    case (Number(x), Number(y)) => x < y
    case (Number(_), Infinite) => true
    case _ => false
  }

  type Metric = (Vector, Vector) -> Distance

  /** The first position of the least element. */
  function ArgMin(ds: seq<Distance>): (i: nat)
    requires ds != []
    ensures i < |ds|
    ensures forall k :: 0 <= k < |ds| ==> !Below(ds[k], ds[i])
    ensures forall k :: 0 <= k < i ==> Below(ds[i], ds[k])
  {
    var n := |ds| - 1;
    if n == 0 then 0
    else
      var best := ArgMin(ds[..n]);
      if Below(ds[n], ds[best]) then n else best
  }

  function Distances(metric: Metric, known: seq<Vector>, face: Vector): seq<Distance> {
    seq(|known|, i requires 0 <= i < |known| => metric(known[i], face))
  }

  function BestMatch(metric: Metric, known: seq<Vector>, face: Vector): (r: (nat, Distance))
    requires known != []
    ensures r.0 < |known| && r.1 == metric(known[r.0], face)
    ensures forall k :: 0 <= k < |known| ==> !Below(metric(known[k], face), r.1)
    ensures forall k :: 0 <= k < r.0 ==> Below(r.1, metric(known[k], face))
  {
    var ds := Distances(metric, known, face);
    var i := ArgMin(ds);
    assert forall k :: 0 <= k < |known| ==> ds[k] == metric(known[k], face);
    (i, ds[i])
  }

  predicate IsMatch(d: Distance, threshold: real) {
    d.Number? && 0.0 < d.value < threshold
  }

  // ----- the pipeline -----

  /** `threshold` is a number; the recognizer and the liveness check are seen through their results. */
  datatype Pipeline = Pipeline(metric: Metric, templates: TemplateSet, threshold: real)

  function NewPipeline(metric: Metric, recognizer: string, templates: TemplateSet, threshold: real): Result<Pipeline> {
    if templates.modelId != recognizer then Err(SpaceMismatch) else Ok(Pipeline(metric, templates, threshold))
  }

  datatype FaceMatch = FaceMatch(row: int, distance: Distance, accepted: bool)

  /** `liveness` is None when the pipeline has no such stage. */
  function Match(p: Pipeline, liveness: Option<bool>, face: Vector): FaceMatch
    requires p.templates.matrix != []
  {
    if liveness == Some(false) then FaceMatch(-1, Infinite, false)
    else
      var (row, distance) := BestMatch(p.metric, p.templates.matrix, face);
      FaceMatch(row, distance, IsMatch(distance, p.threshold))
  }

  /**
   * A face compared against a loaded file has an owner: a template of the recognizer's own space with an
   * encoding at the reported distance, and no encoding of that space in the file is nearer.
   */
  lemma MatchNamesTheNearest(file: File, recognizer: string, p: Pipeline, liveness: Option<bool>, face: Vector)
    requires Load(file, p.templates.modelId) == Ok(p.templates)
    requires NewPipeline(p.metric, recognizer, p.templates, p.threshold) == Ok(p)
    ensures p.templates.Valid() && p.templates.matrix != []
    ensures liveness != Some(false) ==>
              var m := Match(p, liveness, face);
              var space, owner := p.templates.modelId, p.templates.OwnerOf(m.row);
              && owner.Some? && ParseFile(file, space).Ok? && owner.value.modelId == space == recognizer
              && owner.value in ParseFile(file, space).value
              && (exists j :: 0 <= j < |owner.value.embeddings|
                              && p.metric(owner.value.embeddings[j], face) == m.distance)
              && (forall t, j :: t in ParseFile(file, space).value && t.modelId == space && 0 <= j < |t.embeddings| ==>
                    !Below(p.metric(t.embeddings[j], face), m.distance))
    ensures liveness == Some(false) ==>
              var m := Match(p, liveness, face);
              !m.accepted && p.templates.OwnerOf(m.row) == None
  {
    hide ParseFile, Parse, InSpace, Load, ArgMin, Rows, Owners;
    var found := p.templates;
    LoadedIsValid(file, found.modelId);
    InSpaceIsPart(ParseFile(file, found.modelId).value, found.modelId);
    if liveness != Some(false) {
      var m := Match(p, liveness, face);
      RowHasItsOwner(found.templates, m.row);
      var k := found.owners[m.row];
      assert found.OwnerOf(m.row) == Some(found.templates[k]);
      assert found.matrix[m.row] == found.templates[k].embeddings[m.row - Offset(found.templates, k)];
      forall t, j | t in ParseFile(file, found.modelId).value && t.modelId == found.modelId && 0 <= j < |t.embeddings|
        ensures !Below(p.metric(t.embeddings[j], face), m.distance)
      {
        var i :| 0 <= i < |found.templates| && found.templates[i] == t;
        EncodingHasItsRow(found.templates, i, j);
        assert found.matrix[Offset(found.templates, i) + j] == t.embeddings[j];
      }
    }
  }

  predicate Measurable(d: Distance) {
    !d.NaN? && d != Number(0.0)
  }

  /**
   * Exactly when a face is accepted, for a metric that is never negative: liveness did not fail, some
   * stored encoding of the space is nearer than the threshold, and none is at distance zero or not a number.
   */
  lemma AcceptedExactlyWhen(file: File, p: Pipeline, liveness: Option<bool>, face: Vector)
    requires Load(file, p.templates.modelId) == Ok(p.templates)
    requires forall v :: p.metric(v, face).Number? ==> p.metric(v, face).value >= 0.0
    ensures p.templates.matrix != []
    ensures Match(p, liveness, face).accepted <==>
              && liveness != Some(false)
              && (exists r :: 0 <= r < |p.templates.matrix|
                              && Below(p.metric(p.templates.matrix[r], face), Number(p.threshold)))
              && (forall r :: 0 <= r < |p.templates.matrix| ==> Measurable(p.metric(p.templates.matrix[r], face)))
  {
    hide ParseFile, Parse, InSpace, Load, ArgMin, Rows, Owners;
    LoadedIsValid(file, p.templates.modelId);
    if liveness != Some(false) {
      var (row, distance) := BestMatch(p.metric, p.templates.matrix, face);
      assert !Below(p.metric(p.templates.matrix[row], face), distance);
      if !IsMatch(distance, p.threshold) && Measurable(distance) {
        forall r | 0 <= r < |p.templates.matrix|
          ensures !Below(p.metric(p.templates.matrix[r], face), Number(p.threshold))
        {
          assert !Below(p.metric(p.templates.matrix[r], face), distance);
        }
      }
    }
  }

  /** After a re-enrollment the space holds one template, which owns every row. */
  lemma ReenrolledOwnsEveryRow(file: File, d: Draft)
    requires d.modelId != "" && IsArray(d.rows) && Add(file, d, true).0.Ok?
    ensures var (r, after) := Add(file, d, true);
            Load(after, d.modelId) == Ok(TemplateSet(d.modelId, [r.value], d.rows, seq(|d.rows|, _ => 0)))
  {
    hide Parse, Payload, InSpace, LoadOrEmpty, LoadAll, NextIdOf, Others, IsMatrix, AllFinite;
    var (r, after) := Add(file, d, true);
    var existing := LoadOrEmpty(file).value;
    var kept := Others(existing, d.modelId);
    LoadedOrEmptyIsTagged(file);
    BuiltIsTagged(PeekNextId(file, existing), d);
    StoreRoundTrip(Max(NextIdOf(kept + [r.value]), StoredNextId(file)), kept + [r.value], d.modelId);
    InSpaceSnoc(kept, r.value, d.modelId);
    OthersBySpace(existing, d.modelId, d.modelId);
    OneTemplate(r.value);
  }

  /** A face just enrolled, frame for frame, is rejected: its distance to itself is zero. */
  lemma EnrolledFrameIsRejected(file: File, d: Draft, metric: Metric, threshold: real, liveness: Option<bool>, j: nat)
    requires d.modelId != "" && IsArray(d.rows) && Add(file, d, true).0.Ok? && j < |d.rows|
    requires forall v :: metric(v, d.rows[j]).Number? ==> metric(v, d.rows[j]).value >= 0.0
    requires metric(d.rows[j], d.rows[j]) == Number(0.0)
    ensures var found := Load(Add(file, d, true).1, d.modelId);
            found.Ok? && found.value.matrix != []
            && !Match(Pipeline(metric, found.value, threshold), liveness, d.rows[j]).accepted
  {
    hide Add, Load, IsArray;
    var after := Add(file, d, true).1;
    ReenrolledOwnsEveryRow(file, d);
    var p := Pipeline(metric, Load(after, d.modelId).value, threshold);
    AcceptedExactlyWhen(after, p, liveness, d.rows[j]);
    assert !Measurable(metric(p.templates.matrix[j], d.rows[j]));
  }

  lemma OneTemplate(t: Template)
    ensures Rows([t]) == t.embeddings && Owners([t]) == seq(|t.embeddings|, _ => 0)
  {
    assert [t][..0] == [];
  }
}
