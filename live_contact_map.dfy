/**
 * The live contact-frequency map service: turning the worker's dense
 * `traceLength x traceLength` frequency array into sparse contact records,
 * and the service's own state (distance threshold, the input control that
 * mirrors it, the cached frequencies and the RGBA buffer).
 */
module LiveContactMap {
  import opened JsValues

  const MaxDistanceThreshold: int := 10000
  const DefaultDistanceThreshold: int := 256

  /** The event type that announces a freshly loaded ensemble. */
  const DidLoadEnsembleFile: string := "DidLoadEnsembleFile"

  /** The `datasetType` of the Juicebox dataset that shows live maps. */
  const LiveMapDatasetType: string := "livemap"

  /** A sparse contact record `{bin1, bin2, counts}`. */
  datatype ContactRecord = ContactRecord(bin1: nat, bin2: nat, counts: real)

  // ---------------------------------------------------------------------
  // Record extraction: specification

  /**
   * `contactFrequencies[index]` as the test `count > 0` sees it: an index
   * past the end reads `undefined`, which is never positive.
   */
  function CountAt(frequencies: seq<real>, index: nat): real
  {
    if index < |frequencies| then frequencies[index] else 0.0
  }

  /**
   * Only an entry inside the array can pass the `count > 0` test, and it
   * passes with its own value; a read past the end never does.
   */
  lemma PositiveCountIsStored(frequencies: seq<real>, index: nat)
    ensures CountAt(frequencies, index) > 0.0 ==> index < |frequencies| && CountAt(frequencies, index) == frequencies[index]
    ensures index >= |frequencies| ==> !(CountAt(frequencies, index) > 0.0)
  {
  }

  /** The frequency of bin pair (`bin1`, `bin2`) in row-major layout. */
  function Cell(frequencies: seq<real>, traceLength: nat, bin1: nat, bin2: nat): real
  {
    CountAt(frequencies, bin1 * traceLength + bin2)
  }

  /** The record cell (`bin1`, `bin2`) contributes: one if its count is positive, none otherwise. */
  function CellRecords(frequencies: seq<real>, traceLength: nat, bin1: nat, bin2: nat): seq<ContactRecord>
  {
    var count := Cell(frequencies, traceLength, bin1, bin2);
    if count > 0.0 then [ContactRecord(bin1, bin2, count)] else []
  }

  /** The records of row `bin1` for the columns `bin1 <= bin2 < end`, in column order. */
  function RowRecords(frequencies: seq<real>, traceLength: nat, bin1: nat, end: nat): seq<ContactRecord>
    decreases end
  {
    if end <= bin1 then []
    else RowRecords(frequencies, traceLength, bin1, end - 1) + CellRecords(frequencies, traceLength, bin1, end - 1)
  }

  /** The records of the upper-triangular part of the first `rows` rows, row by row. */
  function RecordsBefore(frequencies: seq<real>, traceLength: nat, rows: nat): seq<ContactRecord>
  {
    if rows == 0 then []
    else RecordsBefore(frequencies, traceLength, rows - 1) + RowRecords(frequencies, traceLength, rows - 1, traceLength)
  }

  /** All records of a frequency array, in the order the extraction emits them. */
  function ContactRecords(frequencies: seq<real>, traceLength: nat): seq<ContactRecord>
  {
    RecordsBefore(frequencies, traceLength, traceLength)
  }

  /** A record is one the extraction may emit: an upper-triangular cell with a positive count. */
  predicate IsContact(frequencies: seq<real>, traceLength: nat, r: ContactRecord)
  {
    r.bin1 <= r.bin2 < traceLength
    && r.counts == Cell(frequencies, traceLength, r.bin1, r.bin2)
    && r.counts > 0.0
  }

  /** Lexicographic order on (`bin1`, `bin2`). */
  predicate Precedes(a: ContactRecord, b: ContactRecord)
  {
    a.bin1 < b.bin1 || (a.bin1 == b.bin1 && a.bin2 < b.bin2)
  }

  predicate StrictlyOrdered(records: seq<ContactRecord>)
  {
    forall k, l :: 0 <= k < l < |records| ==> Precedes(records[k], records[l])
  }

  // ---------------------------------------------------------------------
  // Record extraction: the loop

  /**
   * `convertContactFrequencyArrayToRecords`: scan the upper triangle row by
   * row and push a record for every positive count.
   */
  method ConvertContactFrequencyArrayToRecords(contactFrequencies: seq<real>, traceLength: nat)
    returns (records: seq<ContactRecord>)
    ensures records == ContactRecords(contactFrequencies, traceLength)
    ensures StrictlyOrdered(records)
    ensures forall r :: r in records <==> IsContact(contactFrequencies, traceLength, r)
  {
    records := [];
    var bin1 := 0;
    while bin1 < traceLength
      invariant bin1 <= traceLength
      invariant records == RecordsBefore(contactFrequencies, traceLength, bin1)
    {
      var bin2 := bin1;
      while bin2 < traceLength
        invariant bin1 <= bin2 <= traceLength
        invariant records == RecordsBefore(contactFrequencies, traceLength, bin1)
                             + RowRecords(contactFrequencies, traceLength, bin1, bin2)
      {
        var index := bin1 * traceLength + bin2;
        var count := CountAt(contactFrequencies, index);
        if count > 0.0 {
          records := records + [ContactRecord(bin1, bin2, count)];
        }
        bin2 := bin2 + 1;
      }
      bin1 := bin1 + 1;
    }
    ContactRecordsOrdered(contactFrequencies, traceLength);
    forall r ensures r in records <==> IsContact(contactFrequencies, traceLength, r) {
      ContactRecordsExactly(contactFrequencies, traceLength, r);
    }
  }

  // ---------------------------------------------------------------------
  // Record extraction: properties

  lemma {:induction false} RowRecordsShape(frequencies: seq<real>, traceLength: nat, bin1: nat, end: nat)
    ensures forall r :: r in RowRecords(frequencies, traceLength, bin1, end) ==>
              r.bin1 == bin1 && bin1 <= r.bin2 < end
              && r.counts == Cell(frequencies, traceLength, r.bin1, r.bin2) && r.counts > 0.0
    ensures StrictlyOrdered(RowRecords(frequencies, traceLength, bin1, end))
    ensures |RowRecords(frequencies, traceLength, bin1, end)| <= if end <= bin1 then 0 else end - bin1
    decreases end
  {
    if end > bin1 {
      RowRecordsShape(frequencies, traceLength, bin1, end - 1);
    }
  }

  /** Concatenating two ordered runs, every record of the first before every record of the second. */
  lemma ConcatenationOrdered(front: seq<ContactRecord>, back: seq<ContactRecord>)
    requires StrictlyOrdered(front) && StrictlyOrdered(back)
    requires forall x, y :: x in front && y in back ==> Precedes(x, y)
    ensures StrictlyOrdered(front + back)
  {
    var all := front + back;
    forall k, l | 0 <= k < l < |all| ensures Precedes(all[k], all[l]) {
      if l < |front| {
        assert all[k] == front[k] && all[l] == front[l];
      } else if k >= |front| {
        assert all[k] == back[k - |front|] && all[l] == back[l - |front|];
      } else {
        assert all[k] in front && all[l] in back;
      }
    }
  }

  lemma {:induction false} RecordsBeforeShape(frequencies: seq<real>, traceLength: nat, rows: nat)
    requires rows <= traceLength
    ensures forall r :: r in RecordsBefore(frequencies, traceLength, rows) ==>
              r.bin1 < rows && IsContact(frequencies, traceLength, r)
    ensures StrictlyOrdered(RecordsBefore(frequencies, traceLength, rows))
  {
    if rows > 0 {
      var before := RecordsBefore(frequencies, traceLength, rows - 1);
      var row := RowRecords(frequencies, traceLength, rows - 1, traceLength);
      RecordsBeforeShape(frequencies, traceLength, rows - 1);
      RowRecordsShape(frequencies, traceLength, rows - 1, traceLength);
      assert forall x, y :: x in before && y in row ==> x.bin1 < rows - 1 == y.bin1;
      ConcatenationOrdered(before, row);
      forall r | r in before + row
        ensures r.bin1 < rows && IsContact(frequencies, traceLength, r)
      {
        if r !in before {
          assert r in row;
        }
      }
    }
  }

  /** Row `r` has `traceLength - r` upper-triangular cells, so the first `rows` rows have at most that many records. */
  lemma {:induction false} RecordsBeforeCount(frequencies: seq<real>, traceLength: nat, rows: nat)
    requires rows <= traceLength
    ensures 2 * |RecordsBefore(frequencies, traceLength, rows)| <= rows * (2 * traceLength + 1 - rows)
  {
    if rows > 0 {
      RecordsBeforeCount(frequencies, traceLength, rows - 1);
      RowRecordsShape(frequencies, traceLength, rows - 1, traceLength);
      var r: int := rows;
      var n: int := traceLength;
      assert (r - 1) * (2 * n + 1 - (r - 1)) + 2 * (n - (r - 1)) == r * (2 * n + 1 - r);
    }
  }

  lemma {:induction false} RowRecordsComplete(frequencies: seq<real>, traceLength: nat, bin1: nat, end: nat, bin2: nat)
    requires bin1 <= bin2 < end
    requires Cell(frequencies, traceLength, bin1, bin2) > 0.0
    ensures ContactRecord(bin1, bin2, Cell(frequencies, traceLength, bin1, bin2)) in RowRecords(frequencies, traceLength, bin1, end)
    decreases end
  {
    if bin2 < end - 1 {
      RowRecordsComplete(frequencies, traceLength, bin1, end - 1, bin2);
    }
  }

  lemma {:induction false} RecordsBeforeComplete(frequencies: seq<real>, traceLength: nat, rows: nat, r: ContactRecord)
    requires IsContact(frequencies, traceLength, r) && r.bin1 < rows
    ensures r in RecordsBefore(frequencies, traceLength, rows)
  {
    if r.bin1 < rows - 1 {
      RecordsBeforeComplete(frequencies, traceLength, rows - 1, r);
    } else {
      RowRecordsComplete(frequencies, traceLength, r.bin1, traceLength, r.bin2);
    }
  }

  /**
   * Soundness and completeness: a record is emitted exactly when it names an
   * upper-triangular cell `bin1 <= bin2 < traceLength` and carries that
   * cell's count, which is positive.
   */
  lemma ContactRecordsExactly(frequencies: seq<real>, traceLength: nat, r: ContactRecord)
    ensures r in ContactRecords(frequencies, traceLength) <==> IsContact(frequencies, traceLength, r)
  {
    RecordsBeforeShape(frequencies, traceLength, traceLength);
    if IsContact(frequencies, traceLength, r) {
      RecordsBeforeComplete(frequencies, traceLength, traceLength, r);
    }
  }

  /** Records come in strictly increasing (`bin1`, `bin2`) order, so no cell is reported twice. */
  lemma ContactRecordsOrdered(frequencies: seq<real>, traceLength: nat)
    ensures StrictlyOrdered(ContactRecords(frequencies, traceLength))
  {
    RecordsBeforeShape(frequencies, traceLength, traceLength);
  }

  /** At most one record per upper-triangular cell: `traceLength * (traceLength + 1) / 2`. */
  lemma ContactRecordsCount(frequencies: seq<real>, traceLength: nat)
    ensures |ContactRecords(frequencies, traceLength)| <= traceLength * (traceLength + 1) / 2
  {
    var n := traceLength;
    RecordsBeforeCount(frequencies, n, n);
    assert n * (2 * n + 1 - n) == n * (n + 1);
  }

  /**
   * Only the upper triangle is read: two arrays that agree on every cell
   * `bin1 <= bin2 < traceLength` yield the same records.
   */
  lemma ContactRecordsReadUpperTriangleOnly(f: seq<real>, g: seq<real>, traceLength: nat)
    requires forall bin1: nat, bin2: nat :: bin1 <= bin2 < traceLength ==>
               Cell(f, traceLength, bin1, bin2) == Cell(g, traceLength, bin1, bin2)
    ensures ContactRecords(f, traceLength) == ContactRecords(g, traceLength)
  {
    RecordsBeforeAgree(f, g, traceLength, traceLength);
  }

  lemma {:induction false} RecordsBeforeAgree(f: seq<real>, g: seq<real>, traceLength: nat, rows: nat)
    requires rows <= traceLength
    requires forall bin1: nat, bin2: nat :: bin1 <= bin2 < traceLength ==>
               Cell(f, traceLength, bin1, bin2) == Cell(g, traceLength, bin1, bin2)
    ensures RecordsBefore(f, traceLength, rows) == RecordsBefore(g, traceLength, rows)
  {
    if rows > 0 {
      RecordsBeforeAgree(f, g, traceLength, rows - 1);
      RowRecordsAgree(f, g, traceLength, rows - 1, traceLength);
    }
  }

  lemma {:induction false} RowRecordsAgree(f: seq<real>, g: seq<real>, traceLength: nat, bin1: nat, end: nat)
    requires end <= traceLength
    requires forall bin2: nat :: bin1 <= bin2 < traceLength ==>
               Cell(f, traceLength, bin1, bin2) == Cell(g, traceLength, bin1, bin2)
    ensures RowRecords(f, traceLength, bin1, end) == RowRecords(g, traceLength, bin1, end)
    decreases end
  {
    if end > bin1 {
      RowRecordsAgree(f, g, traceLength, bin1, end - 1);
    }
  }

  // ---------------------------------------------------------------------
  // Record keys

  /** The record's `getKey()`: `` `${bin1}_${bin2}` ``. */
  function Key(r: ContactRecord): (key: string)
    ensures |key| == |NatToString(r.bin1)| + 1 + |NatToString(r.bin2)|
    ensures key[|NatToString(r.bin1)|] == '_'
    ensures forall i :: 0 <= i < |key| && i != |NatToString(r.bin1)| ==> IsDigit(key[i])
  {
    NatToString(r.bin1) + "_" + NatToString(r.bin2)
  }

  /** A key names its cell: records with equal keys have the same bins. */
  lemma KeyIdentifiesCell(a: ContactRecord, b: ContactRecord)
    requires Key(a) == Key(b)
    ensures a.bin1 == b.bin1 && a.bin2 == b.bin2
  {
    var s1, s2 := NatToString(a.bin1), NatToString(b.bin1);
    var key := Key(a);
    if |s1| != |s2| {
      assert false;
    }
    assert s1 == key[..|s1|] == s2;
    assert NatToString(a.bin2) == key[|s1| + 1..] == NatToString(b.bin2);
    NatToStringInjective(a.bin1, b.bin1);
    NatToStringInjective(a.bin2, b.bin2);
  }

  /** The keys of the emitted records are pairwise different. */
  lemma ContactRecordKeysDistinct(frequencies: seq<real>, traceLength: nat)
    ensures forall k, l :: 0 <= k < l < |ContactRecords(frequencies, traceLength)| ==>
              Key(ContactRecords(frequencies, traceLength)[k]) != Key(ContactRecords(frequencies, traceLength)[l])
  {
    var records := ContactRecords(frequencies, traceLength);
    ContactRecordsOrdered(frequencies, traceLength);
    forall k, l | 0 <= k < l < |records| ensures Key(records[k]) != Key(records[l]) {
      if Key(records[k]) == Key(records[l]) {
        KeyIdentifiesCell(records[k], records[l]);
        assert false;
      }
    }
  }

  // ---------------------------------------------------------------------
  // Distance threshold

  /** JavaScript truthiness of the `distanceThresholdOrUndefined` argument. */
  predicate IsTruthy(argument: Option<JsNumber>)
  {
    argument.Some? && argument.value.Num? && argument.value.value != 0
  }

  /**
   * `distanceThresholdOrUndefined || estimate`: the argument when it is
   * truthy; undefined, NaN and 0 all fall back to the trace-bounds estimate.
   */
  function ResolveDistanceThreshold(argument: Option<JsNumber>, estimate: int): (threshold: int)
    ensures argument == Some(Num(threshold)) || threshold == estimate
    ensures argument.Some? && argument.value.Num? && argument.value.value != 0 ==> threshold == argument.value.value
    ensures argument.None? || argument == Some(NaN) || argument == Some(Num(0)) ==> threshold == estimate
  {
    if IsTruthy(argument) then argument.value.value else estimate
  }

  /** The clamped value the threshold button reads from the input control. */
  function ThresholdFromInput(inputValue: string): (threshold: JsNumber)
    ensures threshold.Num? ==> 0 <= threshold.value <= MaxDistanceThreshold
  {
    Clamp(ParseInt(inputValue), 0, MaxDistanceThreshold)
  }

  /**
   * Pressing the threshold button while the control still shows the stored
   * in-range threshold stores that same threshold again.
   */
  lemma ThresholdFromMirroredInput(threshold: int)
    requires 0 <= threshold <= MaxDistanceThreshold
    ensures ThresholdFromInput(IntToString(threshold)) == Num(threshold)
  {
    ParseIntOfIntToString(threshold);
  }

  /**
   * A threshold of 0 typed into the control survives the clamp but is
   * falsy, so the recomputation the button schedules uses the estimate.
   */
  lemma ZeroThresholdFallsBackToEstimate(inputValue: string, estimate: int)
    requires ParseInt(inputValue) == Num(0)
    ensures ResolveDistanceThreshold(Some(ThresholdFromInput(inputValue)), estimate) == estimate
  {
  }

  // ---------------------------------------------------------------------
  // The service

  /** How a call of `updateEnsembleContactFrequencyCanvas` ends. */
  datatype UpdateOutcome =
    | LiveMapsUnavailable
      /** the worker's promise rejected; reading `result.workerValuesBuffer` then throws */
    | WorkerFailed
      /** `recordsPushed` holds the records handed to the active live-map dataset, if it is one */
    | Computed(recordsPushed: Option<seq<ContactRecord>>)

  class LiveContactMapService {
    var distanceThreshold: JsNumber
    /** The text of the threshold input control. */
    var inputValue: string
    var contactFrequencies: Option<seq<real>>
    var rgbaMatrix: array?<byte>

    /** Cached frequencies always come with an RGBA buffer to paint them into. */
    ghost predicate Valid()
      reads this
    {
      contactFrequencies.Some? ==> rgbaMatrix != null
    }

    /** The input control shows the stored threshold. */
    ghost predicate InputMirrorsThreshold()
      reads this
    {
      inputValue == NumberToString(distanceThreshold)
    }

    constructor (distanceThreshold: int)
      ensures Valid() && InputMirrorsThreshold()
      ensures this.distanceThreshold == Num(distanceThreshold)
      ensures contactFrequencies == None && rgbaMatrix == null
    {
      this.distanceThreshold := Num(distanceThreshold);
      inputValue := IntToString(distanceThreshold);
      contactFrequencies := None;
      rgbaMatrix := null;
    }

    /**
     * The threshold button's click handler: store the clamped value of the
     * control's text. The control itself is not rewritten here; the update
     * the handler schedules does that.
     */
    method ApplyThresholdInput()
      requires Valid()
      modifies this`distanceThreshold
      ensures Valid()
      ensures distanceThreshold == ThresholdFromInput(inputValue)
      ensures distanceThreshold.Num? ==> 0 <= distanceThreshold.value <= MaxDistanceThreshold
    {
      distanceThreshold := Clamp(ParseInt(inputValue), 0, MaxDistanceThreshold);
    }

    /** `setState(distanceThreshold)`: store the threshold and show it in the control. */
    method SetState(distanceThreshold: int)
      requires Valid()
      modifies this`distanceThreshold, this`inputValue
      ensures Valid() && InputMirrorsThreshold()
      ensures this.distanceThreshold == Num(distanceThreshold)
    {
      this.distanceThreshold := Num(distanceThreshold);
      inputValue := IntToString(distanceThreshold);
    }

    /**
     * `receiveEvent`: a newly loaded ensemble drops the cached frequencies and
     * buffer and resets the threshold to the new ensemble's estimate; every
     * other event is ignored.
     */
    method ReceiveEvent(eventType: string, estimate: int)
      requires Valid()
      modifies this
      ensures Valid()
      ensures eventType == DidLoadEnsembleFile ==>
                contactFrequencies == None && rgbaMatrix == null
                && distanceThreshold == Num(estimate) && InputMirrorsThreshold()
      ensures eventType != DidLoadEnsembleFile ==>
                contactFrequencies == old(contactFrequencies) && rgbaMatrix == old(rgbaMatrix)
                && distanceThreshold == old(distanceThreshold) && inputValue == old(inputValue)
    {
      if DidLoadEnsembleFile == eventType {
        contactFrequencies := None;
        rgbaMatrix := null;
        distanceThreshold := Num(estimate);
        inputValue := NumberToString(distanceThreshold);
      }
    }

    /**
     * Make `rgbaMatrix` a zeroed buffer of `traceLength * traceLength * 4`
     * bytes: a buffer of that length is reused and cleared with `fill(0)`,
     * any other (or none) is replaced by a fresh zeroed `Uint8ClampedArray`.
     */
    method PrepareRgbaMatrix(traceLength: nat)
      requires Valid()
      modifies this`rgbaMatrix, rgbaMatrix
      ensures Valid()
      ensures rgbaMatrix != null && rgbaMatrix.Length == traceLength * traceLength * 4
      ensures forall i :: 0 <= i < rgbaMatrix.Length ==> rgbaMatrix[i] == 0
      ensures (old(rgbaMatrix) != null && old(rgbaMatrix.Length) == traceLength * traceLength * 4)
                ==> rgbaMatrix == old(rgbaMatrix)
      ensures (old(rgbaMatrix) == null || old(rgbaMatrix.Length) != traceLength * traceLength * 4)
                ==> fresh(rgbaMatrix)
    {
      var arrayLength := traceLength * traceLength * 4;
      if rgbaMatrix == null || rgbaMatrix.Length != arrayLength {
        rgbaMatrix := new byte[arrayLength](_ => 0);
      } else {
        FillZero(rgbaMatrix);
      }
    }

    /**
     * The state-changing steps of `updateEnsembleContactFrequencyCanvas`.
     * `liveMapsEnabled` is what `enableLiveMaps()` resolved to, `estimate`
     * the trace-bounds estimate, `workerResult` the worker's frequency array
     * (`None` when its promise rejected) and `activeDatasetType` the
     * `datasetType` of the browser's active dataset, if there is one.
     */
    method UpdateEnsembleContactFrequencyCanvas(distanceThresholdOrUndefined: Option<JsNumber>, liveMapsEnabled: bool,
                                                estimate: int, traceLength: nat, workerResult: Option<seq<real>>,
                                                activeDatasetType: Option<string>)
      returns (outcome: UpdateOutcome)
      requires Valid()
      modifies this, rgbaMatrix
      ensures Valid()
      ensures !liveMapsEnabled ==>
                outcome == LiveMapsUnavailable && unchanged(this)
                && (rgbaMatrix != null ==> unchanged(rgbaMatrix))
      ensures (liveMapsEnabled && old(rgbaMatrix) != null && old(rgbaMatrix.Length) == traceLength * traceLength * 4)
                ==> rgbaMatrix == old(rgbaMatrix)
      ensures (liveMapsEnabled && (old(rgbaMatrix) == null || old(rgbaMatrix.Length) != traceLength * traceLength * 4))
                ==> fresh(rgbaMatrix)
      ensures liveMapsEnabled ==>
                && distanceThreshold == Num(ResolveDistanceThreshold(distanceThresholdOrUndefined, estimate))
                && InputMirrorsThreshold()
                && rgbaMatrix != null && rgbaMatrix.Length == traceLength * traceLength * 4
                && (forall i :: 0 <= i < rgbaMatrix.Length ==> rgbaMatrix[i] == 0)
      ensures liveMapsEnabled && workerResult.None? ==>
                outcome == WorkerFailed && contactFrequencies == old(contactFrequencies)
      ensures liveMapsEnabled && workerResult.Some? ==>
                && contactFrequencies == workerResult
                && outcome.Computed?
                && (outcome.recordsPushed.Some? <==> activeDatasetType == Some(LiveMapDatasetType))
                && (outcome.recordsPushed.Some? ==>
                      outcome.recordsPushed.value == ContactRecords(workerResult.value, traceLength))
    {
      if !liveMapsEnabled {
        return LiveMapsUnavailable;
      }
      distanceThreshold := Num(ResolveDistanceThreshold(distanceThresholdOrUndefined, estimate));
      inputValue := NumberToString(distanceThreshold);

      PrepareRgbaMatrix(traceLength);

      if workerResult.None? {
        return WorkerFailed;
      }
      contactFrequencies := workerResult;

      if activeDatasetType == Some(LiveMapDatasetType) {
        var records := ConvertContactFrequencyArrayToRecords(contactFrequencies.value, traceLength);
        outcome := Computed(Some(records));
      } else {
        outcome := Computed(None);
      }
    }
  }

  /** `TypedArray.prototype.fill(0)`. */
  method FillZero(a: array<byte>)
    modifies a
    ensures forall i :: 0 <= i < a.Length ==> a[i] == 0
  {
    var i := 0;
    while i < a.Length
      invariant i <= a.Length
      invariant forall j :: 0 <= j < i ==> a[j] == 0
    {
      a[i] := 0;
      i := i + 1;
    }
  }
}
