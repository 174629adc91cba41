/**
 * The application shell: the state the viewer's components share, the
 * load handler, the add-occurrence mode machine, and the insertion of a
 * new record into the history and the occurrence layer.
 */
module App {
  import opened Wrappers
  import opened JsValues
  import opened Records
  import opened StableSort
  import opened MapArea
  import opened DataLoader
  import opened OccurrenceForm

  // ---------------------------------------------------------------------
  // Id allocation

  /** The numeric ids of the history, `parseInt(id) || 0` each. */
  function IdNumbers(history: seq<Props>): (r: seq<int>)
    ensures |r| == |history|
    ensures forall i :: 0 <= i < |history| ==> r[i] == IdNumber(IdOf(history[i]))
  {
    seq(|history|, i requires 0 <= i < |history| => IdNumber(IdOf(history[i])))
  }

  /** `Math.max(...xs)` over a non-empty list. */
  function Max(xs: seq<int>): (m: int)
    requires xs != []
    ensures m in xs && forall x :: x in xs ==> x <= m
  {
    if |xs| == 1 then xs[0]
    else
      var m := Max(xs[..|xs| - 1]);
      assert forall x :: x in xs ==> x in xs[..|xs| - 1] || x == xs[|xs| - 1];
      if xs[|xs| - 1] > m then xs[|xs| - 1] else m
  }

  /**
   * `Math.max(...ids) + 1`. Over an empty history `Math.max()` is
   * -Infinity, and so is the sum.
   */
  function NewId(history: seq<Props>): (r: Value)
    ensures r == NegInfinity <==> history == []
    ensures history != [] ==> r.Num?
    ensures r.Num? ==> forall i :: 0 <= i < |history| ==> IdNumber(IdOf(history[i])) < r.n
  {
    if history == [] then NegInfinity
    else
      var ids := IdNumbers(history);
      assert forall i :: 0 <= i < |ids| ==> ids[i] in ids;
      Num(Max(ids) + 1)
  }

  /** The new id exceeds the numeric id of every record, and is one more than one of them. */
  lemma NewIdExceeds(history: seq<Props>)
    requires history != []
    ensures NewId(history).Num?
    ensures forall p :: p in history ==> IdNumber(IdOf(p)) < NewId(history).n
    ensures exists p :: p in history && IdNumber(IdOf(p)) == NewId(history).n - 1
  {
    var ids := IdNumbers(history);
    forall p | p in history
      ensures IdNumber(IdOf(p)) < NewId(history).n
    {
      var i :| 0 <= i < |history| && history[i] == p;
      assert ids[i] in ids;
    }
    var k :| 0 <= k < |ids| && ids[k] == Max(ids);
    assert history[k] in history;
  }

  /** No record of the history already carries the new id as a number. */
  lemma NewIdFresh(history: seq<Props>)
    requires history != []
    ensures forall p :: p in history ==> IdOf(p) != NewId(history)
  {
    NewIdExceeds(history);
    forall p | p in history
      ensures IdOf(p) != NewId(history)
    {
      if IdOf(p).Num? {
        IdNumberOfNum(IdOf(p).n);
      }
    }
  }

  /** The new id is one more than the largest numeric id of the history. */
  lemma NewIdOfMax(history: seq<Props>, m: int)
    requires exists p :: p in history && IdNumber(IdOf(p)) == m
    requires forall p :: p in history ==> IdNumber(IdOf(p)) <= m
    ensures NewId(history) == Num(m + 1)
  {
    NewIdExceeds(history);
  }

  /** A record of ids 1, 3 and 7 gets id 8. */
  lemma NewIdExample(a: Props, b: Props, c: Props)
    requires IdOf(a) == Num(1) && IdOf(b) == Num(3) && IdOf(c) == Num(7)
    ensures NewId([a, b, c]) == Num(8)
  {
    forall p | p in [a, b, c]
      ensures IdNumber(IdOf(p)) == IdOf(p).n
    {
      IdNumberOfNum(IdOf(p).n);
    }
    assert c in [a, b, c];
    NewIdOfMax([a, b, c], 7);
  }

  /** The -Infinity id of a record added to an empty history counts as 0 for the next one. */
  lemma NewIdAfterNegInfinity(p: Props)
    requires IdOf(p) == NegInfinity
    ensures NewId([p]) == Num(1)
  {
    assert IdNumber(NegInfinity) == 0 by {
      assert "-Infinity"[1..] == "Infinity";
      assert Text.DigitRun("Infinity", 0) == 0;
    }
  }

  // ---------------------------------------------------------------------
  // The new record

  /** The properties of the record built from a submission. */
  function NewProperties(id: Value, s: Submission): (r: Props)
    ensures IdOf(r) == id && Get(r, "objectid") == id
    ensures StatusOf(r) == Some(s.form.status) && DateOf(r) == Str(s.dataHora)
    ensures r.Keys == {IdKey, "objectid", "tipo", "status", "descricao_detalhada", "km", "Local", "data_hora"}
  {
    map[
      IdKey := id,
      "objectid" := id,
      "tipo" := Str(s.form.tipo),
      "status" := Str(s.form.status),
      "descricao_detalhada" := Str(s.form.descricao),
      "km" := Str(s.form.km),
      "Local" := Str(s.form.local),
      "data_hora" := Str(s.dataHora)]
  }

  /** A point feature at the submission's position, `coordinates = [lng, lat]`. */
  function NewFeature(props: Props, s: Submission): (f: Feature)
    ensures f.props == props && f.lng == s.coordinates.lng && f.lat == s.coordinates.lat
  {
    Feature(props, s.coordinates.lng, s.coordinates.lat)
  }

  /** The layers after appending `f` to the occurrence layer, when it is loaded. */
  function AddFeature(layers: map<string, Option<Collection>>, f: Feature): (r: map<string, Option<Collection>>)
    ensures r.Keys == layers.Keys
    ensures forall k :: k in layers && k != OccurrenceLayer ==> r[k] == layers[k]
    ensures OccurrenceLayer in layers && layers[OccurrenceLayer].Some? ==>
      && r[OccurrenceLayer].Some?
      && r[OccurrenceLayer].value.header == layers[OccurrenceLayer].value.header
      && r[OccurrenceLayer].value.features == layers[OccurrenceLayer].value.features + [f]
    ensures !(OccurrenceLayer in layers && layers[OccurrenceLayer].Some?) ==> r == layers
  {
    if OccurrenceLayer in layers && layers[OccurrenceLayer].Some? then
      var c := layers[OccurrenceLayer].value;
      layers[OccurrenceLayer := Some(c.(features := c.features + [f]))]
    else layers
  }

  /** The new record is pending on the map when the form kept its default status. */
  lemma NewRecordPending(id: Value, s: Submission, nowIso: string)
    requires s.form.status == Defaults(nowIso).status
    ensures Score(StatusOf(NewProperties(id, s))) == 2
  {
    DefaultStatusPending(nowIso);
  }

  // ---------------------------------------------------------------------
  // The shared state

  class AppState {
    var layers: map<string, Option<Collection>>
    var loading: bool
    var activeOccurrence: Option<Props>
    var historyItems: seq<Props>
    var isAddingMode: bool
    var isModalOpen: bool
    var newCoordinates: Option<LatLng>
    var isMobileSidebarOpen: bool

    /** The initial state: nothing loaded, loading, nothing selected, every panel closed. */
    constructor ()
      ensures layers == map[] && loading && activeOccurrence == None && historyItems == []
      ensures !isAddingMode && !isModalOpen && newCoordinates == None && !isMobileSidebarOpen
    {
      layers := map[];
      loading := true;
      activeOccurrence := None;
      historyItems := [];
      isAddingMode := false;
      isModalOpen := false;
      newCoordinates := None;
      isMobileSidebarOpen := false;
    }

    /**
     * `initData` once `loadAllData` has answered: the layers are replaced,
     * the history only by a non-empty list, and loading ends.
     */
    method InitData(loaded: map<string, Option<Collection>>, historyFull: seq<Props>)
      modifies this
      ensures layers == loaded && !loading
      ensures historyItems == (if |historyFull| > 0 then historyFull else old(historyItems))
      ensures activeOccurrence == old(activeOccurrence) && isAddingMode == old(isAddingMode)
      ensures isModalOpen == old(isModalOpen) && newCoordinates == old(newCoordinates)
      ensures isMobileSidebarOpen == old(isMobileSidebarOpen)
    {
      layers := loaded;
      if |historyFull| > 0 {
        historyItems := historyFull;
      }
      loading := false;
    }

    /**
     * `initData` in full: load the data, then store it. The layers are the
     * four files as fetched, the occurrence layer normalised; the history
     * is the occurrence layer's records, or the fetched history when that
     * layer is missing, and the old history stays when either is empty.
     */
    method Start(fetch: string -> Option<Collection>, historyJson: Option<seq<Props>>)
      modifies this
      ensures layers.Keys == NamesOf(LayerFiles) && !loading
      ensures forall i :: 0 <= i < |LayerFiles| && i != 1 ==>
        LayerName(LayerFiles[i]) in layers && layers[LayerName(LayerFiles[i])] == fetch(LayerFiles[i])
      ensures OccurrenceLayer in layers && LoadedOccurrences(fetch(LayerFiles[1]), layers[OccurrenceLayer])
      ensures var historyFull := if layers[OccurrenceLayer].Some?
          then MapSeq(PropsOf, layers[OccurrenceLayer].value.features)
          else HistoryOrEmpty(historyJson);
        historyItems == (if |historyFull| > 0 then historyFull else old(historyItems))
      ensures activeOccurrence == old(activeOccurrence) && isAddingMode == old(isAddingMode)
      ensures isModalOpen == old(isModalOpen) && newCoordinates == old(newCoordinates)
      ensures isMobileSidebarOpen == old(isMobileSidebarOpen)
    {
      var loaded, historyFull := LoadAllData(fetch, historyJson);
      InitData(loaded, historyFull);
    }

    /** `handleAddClick`: toggle adding mode, drop the selection, close the mobile sidebar. */
    method HandleAddClick()
      modifies this
      ensures isAddingMode == !old(isAddingMode)
      ensures activeOccurrence == None && !isMobileSidebarOpen
      ensures layers == old(layers) && loading == old(loading) && historyItems == old(historyItems)
      ensures isModalOpen == old(isModalOpen) && newCoordinates == old(newCoordinates)
    {
      isAddingMode := !isAddingMode;
      activeOccurrence := None;
      isMobileSidebarOpen := false;
    }

    /** `handleMapClick`: keep the position, open the form, leave adding mode. */
    method HandleMapClick(latlng: LatLng)
      modifies this
      ensures newCoordinates == Some(latlng) && isModalOpen && !isAddingMode
      ensures Shown(isModalOpen, newCoordinates)
      ensures layers == old(layers) && loading == old(loading) && historyItems == old(historyItems)
      ensures activeOccurrence == old(activeOccurrence) && isMobileSidebarOpen == old(isMobileSidebarOpen)
    {
      newCoordinates := Some(latlng);
      isModalOpen := true;
      isAddingMode := false;
    }

    /**
     * The map's click handler: a click picks the position only in adding
     * mode; any other click changes nothing.
     */
    method MapClick(latlng: LatLng)
      modifies this
      ensures old(isAddingMode) ==> newCoordinates == Some(latlng) && isModalOpen && !isAddingMode
      ensures old(isAddingMode) ==> Shown(isModalOpen, newCoordinates)
      ensures !old(isAddingMode) ==>
        isModalOpen == old(isModalOpen) && newCoordinates == old(newCoordinates) && !isAddingMode
      ensures layers == old(layers) && loading == old(loading) && historyItems == old(historyItems)
      ensures activeOccurrence == old(activeOccurrence) && isMobileSidebarOpen == old(isMobileSidebarOpen)
    {
      if isAddingMode {
        HandleMapClick(latlng);
      }
    }

    /**
     * `handleSaveOccurrence`: the new record goes in front of the history
     * and, as a point feature, at the end of the occurrence layer.
     */
    method HandleSaveOccurrence(s: Submission)
      modifies this
      ensures historyItems == [NewProperties(NewId(old(historyItems)), s)] + old(historyItems)
      ensures layers == AddFeature(old(layers), NewFeature(NewProperties(NewId(old(historyItems)), s), s))
      ensures loading == old(loading) && activeOccurrence == old(activeOccurrence)
      ensures isAddingMode == old(isAddingMode) && isModalOpen == old(isModalOpen)
      ensures newCoordinates == old(newCoordinates) && isMobileSidebarOpen == old(isMobileSidebarOpen)
    {
      var newId := NewId(historyItems);
      var newProperties := NewProperties(newId, s);
      historyItems := [newProperties] + historyItems;
      if OccurrenceLayer in layers && layers[OccurrenceLayer].Some? {
        var newFeature := NewFeature(newProperties, s);
        var c := layers[OccurrenceLayer].value;
        var updatedFeatures := c.features + [newFeature];
        layers := layers[OccurrenceLayer := Some(c.(features := updatedFeatures))];
      }
    }

    /** The form's `onClose`. */
    method CloseModal()
      modifies this
      ensures !isModalOpen && !Shown(isModalOpen, newCoordinates)
      ensures layers == old(layers) && loading == old(loading) && historyItems == old(historyItems)
      ensures activeOccurrence == old(activeOccurrence) && isAddingMode == old(isAddingMode)
      ensures newCoordinates == old(newCoordinates) && isMobileSidebarOpen == old(isMobileSidebarOpen)
    {
      isModalOpen := false;
    }

    /**
     * A submit of the shown form: `onSave` with the stamped record, then
     * `onClose`; the form's next contents are returned.
     */
    method Submit(form: FormData, clock: Dates.Clock, nowIso: string) returns (next: FormData)
      requires Shown(isModalOpen, newCoordinates)
      modifies this
      ensures next == Defaults(nowIso) && !isModalOpen
      ensures var saved := HandleSubmit(form, old(newCoordinates).value, clock, nowIso).saved;
        && historyItems == [NewProperties(NewId(old(historyItems)), saved)] + old(historyItems)
        && layers == AddFeature(old(layers), NewFeature(historyItems[0], saved))
      ensures loading == old(loading) && activeOccurrence == old(activeOccurrence)
      ensures isAddingMode == old(isAddingMode) && newCoordinates == old(newCoordinates)
      ensures isMobileSidebarOpen == old(isMobileSidebarOpen)
    {
      var r := HandleSubmit(form, newCoordinates.value, clock, nowIso);
      HandleSaveOccurrence(r.saved);
      CloseModal();
      next := r.next;
    }

    /** The sidebar's `onSelect`: select the item and close the mobile sidebar. */
    method Select(item: Props)
      modifies this
      ensures activeOccurrence == Some(item) && !isMobileSidebarOpen
      ensures layers == old(layers) && loading == old(loading) && historyItems == old(historyItems)
      ensures isAddingMode == old(isAddingMode) && isModalOpen == old(isModalOpen)
      ensures newCoordinates == old(newCoordinates)
    {
      activeOccurrence := Some(item);
      isMobileSidebarOpen := false;
    }
  }
}
