/**
 * The map view: status classifiers for markers, popups and draw order,
 * co-location clusters, the newest-first popup list, the draw-order sort
 * with the selected occurrence on top, and the id-to-layer registry.
 */
module MapArea {
  import opened Wrappers
  import opened Text
  import opened JsValues
  import opened Records
  import opened Dates
  import opened StableSort

  // ---------------------------------------------------------------------
  // Status classification

  /** The pending markers, tested before anything else. */
  predicate PendingText(s: string) {
    Contains(s, "não") || Contains(s, "nao") || Contains(s, "pendente")
  }

  predicate Falsy(status: Option<string>) {
    status.None? || status.value == ""
  }

  /** `getScore`: the draw rank of a status. */
  function Score(status: Option<string>): (r: int)
    ensures 0 <= r <= 2
  {
    if Falsy(status) then 0
    else
      var s := ToLower(status.value);
      if PendingText(s) then 2
      else if Contains(s, "em andamento") then 1
      else if Contains(s, "resolvido") then 0
      else 0
  }

  const Grey := "#94a3b8"
  const Red := "#ef4444"
  const Amber := "#f59e0b"
  const Green := "#22c55e"
  const Blue := "#3b82f6"

  /** `getMarkerColor`. */
  function MarkerColor(status: Option<string>): (r: string)
    ensures r in {Grey, Red, Amber, Green, Blue}
    ensures r == Grey <==> Falsy(status)
    ensures r == Red <==> !Falsy(status) && PendingText(ToLower(status.value))
  {
    if Falsy(status) then Grey
    else
      var s := ToLower(status.value);
      if PendingText(s) then Red
      else if Contains(s, "em andamento") then Amber
      else if Contains(s, "resolvido") then Green
      else Blue
  }

  /** A feature is the selected one when its id is strictly equal to the selection's. */
  predicate Selected(f: Feature, active: Option<Props>) {
    active.Some? && IdOf(f.props) == IdOf(active.value)
  }

  /** The status `pointToLayer` colours a feature by: the selection's own status for the selected feature. */
  function MarkerStatus(f: Feature, active: Option<Props>): Option<string> {
    if Selected(f, active) then StatusOf(active.value) else StatusOf(f.props)
  }

  /** The fill colour of a feature's circle marker. */
  function MarkerFill(f: Feature, active: Option<Props>): string {
    MarkerColor(MarkerStatus(f, active))
  }

  datatype Icon = AlertCircle | AlertTriangle | ClockIcon | CheckCircle

  /** The icon and text colour of a popup entry. */
  datatype Tone = Tone(icon: Icon, colorClass: string)

  /** `p.status || 'Não informado'`: the text a popup entry shows. */
  function StatusLabel(p: Props): (r: string)
    ensures r != ""
    ensures !Falsy(StatusOf(p)) ==> r == StatusOf(p).value
  {
    match StatusOf(p)
    case Some(s) => if s != "" then s else "Não informado"
    case None => "Não informado"
  }

  /** The popup's icon-and-colour chain over the shown label. */
  function PopupTone(shown: string): (r: Tone)
    ensures r.icon == AlertTriangle <==> r.colorClass == "text-red-500"
    ensures r.icon == ClockIcon <==> r.colorClass == "text-amber-500"
    ensures r.icon == CheckCircle <==> r.colorClass == "text-green-500"
    ensures r.icon == AlertTriangle <==> PendingText(ToLower(shown))
  {
    var s := ToLower(shown);
    if PendingText(s) then Tone(AlertTriangle, "text-red-500")
    else if Contains(s, "em andamento") then Tone(ClockIcon, "text-amber-500")
    else if Contains(s, "resolvido") then Tone(CheckCircle, "text-green-500")
    else Tone(AlertCircle, "text-slate-500")
  }

  // ---------------------------------------------------------------------
  // Classification lemmas

  /** The three levels of `Score`, each stated as the condition that selects it. */
  lemma ScoreLevels(status: Option<string>)
    ensures Score(status) == 2 <==> !Falsy(status) && PendingText(ToLower(status.value))
    ensures Score(status) == 1 <==> !Falsy(status) && !PendingText(ToLower(status.value))
                                    && Contains(ToLower(status.value), "em andamento")
  {
  }

  /**
   * Checking the pending markers first is what keeps "não resolvido" from
   * being read as resolved: any status whose lower-cased text contains
   * "não resolvido" ranks 2.
   */
  lemma NotResolvedIsPending(s: string)
    requires Contains(ToLower(s), "não resolvido")
    ensures Score(Some(s)) == 2
    ensures MarkerColor(Some(s)) == Red
    ensures PopupTone(s).icon == AlertTriangle
  {
    assert StartsWith("não resolvido", "não");
    ContainsTransitive(ToLower(s), "não resolvido", "não");
  }

  /** "Resolvido" ranks 0 and its marker is green. */
  lemma ResolvedScoresZero()
    ensures Score(Some("Resolvido")) == 0 && MarkerColor(Some("Resolvido")) == Green
  {
    LowerResolvido();
    ResolvidoText();
    ResolvedClassified(Some("Resolvido"), "resolvido");
  }

  lemma ResolvidoText()
    ensures !PendingText("resolvido") && !Contains("resolvido", "em andamento") && Contains("resolvido", "resolvido")
  {
    WithoutN("resolvido");
    assert StartsWith("resolvido", "resolvido");
  }

  lemma ResolvedClassified(status: Option<string>, s: string)
    requires !Falsy(status) && ToLower(status.value) == s
    requires !PendingText(s) && !Contains(s, "em andamento") && Contains(s, "resolvido")
    ensures Score(status) == 0 && MarkerColor(status) == Green
  {
  }

  /** A text without the letter 'n' is neither pending nor in progress. */
  lemma WithoutN(s: string)
    requires 'n' !in s
    ensures !PendingText(s) && !Contains(s, "em andamento")
  {
    NotContainsChar(s, "não", 'n');
    NotContainsChar(s, "nao", 'n');
    NotContainsChar(s, "pendente", 'n');
    NotContainsChar(s, "em andamento", 'n');
  }

  lemma LowerResolvido()
    ensures ToLower("Resolvido") == "resolvido"
  {
    var r := ToLower("Resolvido");
    forall i | 0 <= i < 9
      ensures r[i] == "resolvido"[i]
    {
      assert r[i] == LowerChar("Resolvido"[i]);
    }
  }

  /** "Não Resolvido", the form's default status, ranks 2, above "Resolvido". */
  lemma NotResolvedAboveResolved()
    ensures Score(Some("Não Resolvido")) == 2
    ensures Score(Some("Não Resolvido")) > Score(Some("Resolvido"))
  {
    var n := ToLower("Não Resolvido");
    assert n[..3] == "não" by {
      assert n[0] == LowerChar('N') && n[1] == LowerChar('ã') && n[2] == LowerChar('o');
    }
    assert StartsWith(n, "não");
    ResolvedScoresZero();
  }

  /** For a present status, the marker colour is red, amber or not, exactly as the score is 2, 1 or 0. */
  lemma MarkerColorFollowsScore(status: Option<string>)
    requires !Falsy(status)
    ensures MarkerColor(status) == Red <==> Score(status) == 2
    ensures MarkerColor(status) == Amber <==> Score(status) == 1
    ensures Score(status) == 0 <==> MarkerColor(status) == Green || MarkerColor(status) == Blue
  {
  }

  /**
   * A present status that is neither pending nor in progress is green when
   * its text contains "resolvido" and blue otherwise; the popup shows the
   * check icon on exactly the same statuses.
   */
  lemma ResolvedGreenOtherwiseBlue(status: Option<string>)
    requires !Falsy(status) && !PendingText(ToLower(status.value))
    requires !Contains(ToLower(status.value), "em andamento")
    ensures MarkerColor(status) == Green <==> Contains(ToLower(status.value), "resolvido")
    ensures MarkerColor(status) == Blue <==> !Contains(ToLower(status.value), "resolvido")
    ensures PopupTone(status.value).icon == CheckCircle <==> Contains(ToLower(status.value), "resolvido")
  {
  }

  /**
   * The popup uses the same precedence as `Score` for a present status;
   * a missing status is shown as "Não informado", which the chain files as
   * pending although it scores 0 and its marker is grey.
   */
  lemma PopupToneFollowsScore(p: Props)
    ensures !Falsy(StatusOf(p)) ==>
      (PopupTone(StatusLabel(p)).icon == AlertTriangle <==> Score(StatusOf(p)) == 2)
      && (PopupTone(StatusLabel(p)).icon == ClockIcon <==> Score(StatusOf(p)) == 1)
    ensures Falsy(StatusOf(p)) ==>
      StatusLabel(p) == "Não informado" && PopupTone(StatusLabel(p)) == Tone(AlertTriangle, "text-red-500")
      && Score(StatusOf(p)) == 0 && MarkerColor(StatusOf(p)) == Grey
  {
    if Falsy(StatusOf(p)) {
      var n := ToLower("Não informado");
      assert n == "não informado";
      assert StartsWith(n, "não");
    }
  }

  /**
   * The marker of the selected feature takes its colour from the
   * selection's status; every other marker from its own.
   */
  lemma MarkerFillOwnOrSelected(f: Feature, active: Option<Props>)
    ensures Selected(f, active) ==> MarkerFill(f, active) == MarkerColor(StatusOf(active.value))
    ensures !Selected(f, active) ==> MarkerFill(f, active) == MarkerColor(StatusOf(f.props))
    ensures active == Some(f.props) ==> MarkerFill(f, active) == MarkerColor(StatusOf(f.props))
  {
  }

  // ---------------------------------------------------------------------
  // Co-location

  /** The per-axis tolerance, 0.000001 degrees. */
  const Epsilon: real := 0.000001

  function Abs(x: real): real {
    if x < 0.0 then -x else x
  }

  /** Both coordinates differ by less than `Epsilon`. */
  predicate Near(f: Feature, g: Feature) {
    Abs(f.lng - g.lng) < Epsilon && Abs(f.lat - g.lat) < Epsilon
  }

  /** The features of `all` at the location of `feature`, in the order of `all`. */
  function Cluster(all: seq<Feature>, feature: Feature): (r: seq<Feature>)
    decreases |all|
    ensures |r| <= |all|
    ensures forall g :: g in r ==> Near(g, feature)
  {
    if all == [] then []
    else Cluster(all[..|all| - 1], feature) + (if Near(all[|all| - 1], feature) then [all[|all| - 1]] else [])
  }

  /** Membership in a cluster is exactly nearness on both axes. */
  lemma {:induction false} ClusterMembers(all: seq<Feature>, feature: Feature, f: Feature)
    ensures f in Cluster(all, feature) <==> f in all && Near(f, feature)
  {
    if all != [] {
      ClusterMembers(all[..|all| - 1], feature, f);
      assert all == all[..|all| - 1] + [all[|all| - 1]];
    }
  }

  /** The relation is reflexive and symmetric. */
  lemma NearReflexiveSymmetric(f: Feature, g: Feature)
    ensures Near(f, f)
    ensures Near(f, g) <==> Near(g, f)
  {
  }

  /** Every feature of the layer belongs to its own cluster. */
  lemma ClusterHasSelf(all: seq<Feature>, feature: Feature)
    requires feature in all
    ensures feature in Cluster(all, feature) && |Cluster(all, feature)| > 0
  {
    ClusterMembers(all, feature, feature);
  }

  /** Reordering the layer reorders the cluster, nothing more: membership does not depend on order. */
  lemma {:induction false} ClusterPermutation(all: seq<Feature>, feature: Feature)
    ensures forall f :: f in all ==> multiset(Cluster(all, feature))[f] == if Near(f, feature) then multiset(all)[f] else 0
  {
    if all != [] {
      var rest, last := all[..|all| - 1], all[|all| - 1];
      ClusterPermutation(rest, feature);
      assert all == rest + [last];
      forall f | f in all
        ensures multiset(Cluster(all, feature))[f] == if Near(f, feature) then multiset(all)[f] else 0
      {
        if f !in rest {
          ClusterMembers(rest, feature, f);
        }
      }
    }
  }

  /** Nearness is not transitive, so clusters of neighbouring features can differ. */
  lemma NearNotTransitive(p: Props)
    ensures var a, b, c := Feature(p, 0.0, 0.0), Feature(p, 0.0000007, 0.0), Feature(p, 0.0000014, 0.0);
      Near(a, b) && Near(b, c) && !Near(a, c)
  {
  }

  /**
   * Two features a trillionth of a degree apart share a cluster of two; a
   * third a tenth of a degree west stands alone.
   */
  lemma ClusterExample(p: Props, q: Props, r: Props)
    requires p != q && q != r && p != r
    ensures var a, b, c := Feature(p, -50.1, -29.6), Feature(q, -50.1, -29.600000000001), Feature(r, -50.2, -29.6);
      Cluster([a, b, c], a) == [a, b] && Cluster([a, b, c], c) == [c]
  {
    var a, b, c := Feature(p, -50.1, -29.6), Feature(q, -50.1, -29.600000000001), Feature(r, -50.2, -29.6);
    assert Near(b, a) && !Near(c, a) && !Near(a, c) && !Near(b, c);
    assert [a, b, c][..2] == [a, b] && [a, b][..1] == [a] && [a][..0] == [];
    assert Cluster([a], a) == [a] && Cluster([a], c) == [];
    assert Cluster([a, b], a) == [a, b] && Cluster([a, b], c) == [];
  }

  // ---------------------------------------------------------------------
  // The popup of one marker

  datatype PopupEntry = PopupEntry(id: Value, shown: string, icon: Icon, colorClass: string, isActive: bool)

  /** What a marker's popup shows: title, member count, one entry per member, and the 3D button. */
  datatype Popup = Popup(title: Value, count: nat, entries: seq<PopupEntry>, show3D: bool)

  /** `activeOccurrence?.id_ocorrencia`. */
  function ActiveId(active: Option<Props>): Value {
    if active.None? then Undefined else IdOf(active.value)
  }

  function EntryFor(f: Feature, active: Option<Props>): PopupEntry {
    var shown := StatusLabel(f.props);
    var tone := PopupTone(shown);
    PopupEntry(IdOf(f.props), shown, tone.icon, tone.colorClass, ActiveId(active) == IdOf(f.props))
  }

  /** One popup entry per member, in order. */
  function Entries(members: seq<Feature>, active: Option<Props>): (r: seq<PopupEntry>)
    ensures |r| == |members| && forall i :: 0 <= i < |members| ==> r[i] == EntryFor(members[i], active)
  {
    seq(|members|, i requires 0 <= i < |members| => EntryFor(members[i], active))
  }

  /** `features.some(f => String(f.properties.objectid) === '414')`. */
  predicate Show3D(members: seq<Feature>) {
    exists i :: 0 <= i < |members| && JsString(Get(members[i].props, "objectid")) == "414"
  }

  function PopupFor(members: seq<Feature>, active: Option<Props>): Popup
    requires |members| > 0
  {
    Popup(Or(Get(members[0].props, "Local"), Str("Local")), |members|,
          Entries(members, active), Show3D(members))
  }

  /** The popup sort key: newest `data_hora` first. */
  function FeatureDateKey(clock: Clock): Feature -> int {
    (f: Feature) => NewestFirstKey(clock, DateOf(f.props))
  }

  /** The popup bound to the marker of `feature`: its cluster, newest first. */
  function ClusterPopup(all: seq<Feature>, feature: Feature, active: Option<Props>, clock: Clock): Popup
    requires feature in all
  {
    ClusterHasSelf(all, feature);
    SortByPermutation(Cluster(all, feature), FeatureDateKey(clock));
    PopupFor(SortBy(Cluster(all, feature), FeatureDateKey(clock)), active)
  }

  /** A marker's popup lists at least the marker's own feature. */
  lemma ClusterPopupNonEmpty(all: seq<Feature>, feature: Feature, clock: Clock)
    requires feature in all
    ensures |SortBy(Cluster(all, feature), FeatureDateKey(clock))| > 0
  {
    ClusterHasSelf(all, feature);
    SortByPermutation(Cluster(all, feature), FeatureDateKey(clock));
  }

  /**
   * The members of a marker's popup are exactly the features at its
   * location, each as often as in the layer, newest first; features of
   * equal date keep their layer order.
   */
  lemma ClusterMembersNewestFirst(all: seq<Feature>, feature: Feature, clock: Clock)
    requires feature in all
    ensures var members := SortBy(Cluster(all, feature), FeatureDateKey(clock));
      && multiset(members) == multiset(Cluster(all, feature))
      && (forall f :: f in members <==> f in all && Near(f, feature))
      && (forall i, j :: 0 <= i < j < |members| ==>
            ParseDate(clock, DateOf(members[i].props)) >= ParseDate(clock, DateOf(members[j].props)))
      && (forall v :: WithKey(members, FeatureDateKey(clock), v) == WithKey(Cluster(all, feature), FeatureDateKey(clock), v))
  {
    var key := FeatureDateKey(clock);
    var members := SortBy(Cluster(all, feature), key);
    SortByPermutation(Cluster(all, feature), key);
    SortBySorted(Cluster(all, feature), key);
    forall f
      ensures f in members <==> f in all && Near(f, feature)
    {
      ClusterMembers(all, feature, f);
      assert f in members <==> f in multiset(members);
    }
    forall i, j | 0 <= i < j < |members|
      ensures ParseDate(clock, DateOf(members[i].props)) >= ParseDate(clock, DateOf(members[j].props))
    {
      assert key(members[i]) <= key(members[j]);
    }
    forall v
      ensures WithKey(members, key, v) == WithKey(Cluster(all, feature), key, v)
    {
      SortByStable(Cluster(all, feature), key, v);
    }
  }

  /**
   * A marker's popup counts its members, has one entry per member in
   * order, and highlights exactly the entries whose id is strictly equal
   * to the selected id.
   */
  lemma ClusterPopupEntries(all: seq<Feature>, feature: Feature, active: Option<Props>, clock: Clock)
    requires feature in all
    ensures var members := SortBy(Cluster(all, feature), FeatureDateKey(clock));
      var popup := ClusterPopup(all, feature, active, clock);
      && popup.count == |members| == |popup.entries| >= 1
      && popup.title == Or(Get(members[0].props, "Local"), Str("Local"))
      && (forall i :: 0 <= i < |members| ==>
            && popup.entries[i].id == IdOf(members[i].props)
            && popup.entries[i].shown == StatusLabel(members[i].props)
            && (popup.entries[i].isActive <==> IdOf(members[i].props) == ActiveId(active)))
  {
    ClusterHasSelf(all, feature);
    SortByPermutation(Cluster(all, feature), FeatureDateKey(clock));
  }

  /** The 3D button shows exactly when some member's `objectid` is 414, as a number or as the string "414". */
  lemma Show3DIff(members: seq<Feature>)
    ensures Show3D(members) <==> exists i :: 0 <= i < |members| && Is414(Get(members[i].props, "objectid"))
  {
    forall i | 0 <= i < |members|
      ensures JsString(Get(members[i].props, "objectid")) == "414" <==> Is414(Get(members[i].props, "objectid"))
    {
      StringOf414(Get(members[i].props, "objectid"));
    }
  }

  predicate Is414(v: Value) {
    v == Num(414) || v == Str("414")
  }

  /** `String(v) === '414'` holds for the number 414 and the string "414" and nothing else. */
  lemma StringOf414(v: Value)
    ensures JsString(v) == "414" <==> Is414(v)
  {
    if v.Num? {
      if v.n >= 0 && JsString(v) == "414" {
        DecimalNamed414(v.n);
      }
      if v.n == 414 {
        DecimalOf414();
      }
      if v.n < 0 {
        assert JsString(v)[0] == '-';
      }
    }
  }

  lemma DecimalOf414()
    ensures NatToDecimal(414) == "414"
  {
    assert NatToDecimal(414) == NatToDecimal(41) + [DigitChar(4)];
    assert NatToDecimal(41) == NatToDecimal(4) + [DigitChar(1)];
  }

  lemma DecimalNamed414(n: nat)
    requires NatToDecimal(n) == "414"
    ensures n == 414
  {
    DecimalRoundTrip(n);
    assert "414"[..2] == "41" && "41"[..1] == "4";
  }

  // ---------------------------------------------------------------------
  // Draw order

  /** The comparator of `sortedOcorrencias`, as written. */
  function DrawCompare(a: Feature, b: Feature, active: Option<Props>): (r: int)
    ensures -2 <= r <= 2
    ensures Selected(a, active) ==> r > 0
    ensures r == 0 ==>
      !Selected(a, active) && !Selected(b, active) && Score(StatusOf(a.props)) == Score(StatusOf(b.props))
  {
    if active.Some? && IdOf(a.props) == IdOf(active.value) then 1
    else if active.Some? && IdOf(b.props) == IdOf(active.value) then -1
    else Score(StatusOf(a.props)) - Score(StatusOf(b.props))
  }

  /** The rank the comparator orders by: above every score for the selected feature. */
  function DrawRank(f: Feature, active: Option<Props>): (r: int)
    ensures Selected(f, active) <==> r == 3
  {
    if Selected(f, active) then 3 else Score(StatusOf(f.props))
  }

  function DrawKey(active: Option<Props>): Feature -> int {
    (f: Feature) => DrawRank(f, active)
  }

  function Sign(x: int): int {
    if x < 0 then -1 else if x > 0 then 1 else 0
  }

  /**
   * Unless both features are the selected one, the comparator's sign is the
   * sign of the rank difference, so the sort orders by `DrawRank`. Two
   * features that both carry the selected id each claim to come later: the
   * comparator is then inconsistent.
   */
  lemma DrawCompareIsRankOrder(a: Feature, b: Feature, active: Option<Props>)
    ensures !(Selected(a, active) && Selected(b, active)) ==>
      Sign(DrawCompare(a, b, active)) == Sign(DrawRank(a, active) - DrawRank(b, active))
    ensures Selected(a, active) && Selected(b, active) ==>
      DrawCompare(a, b, active) == 1 && DrawCompare(b, a, active) == 1
  {
  }

  /**
   * `sortedOcorrencias`: no layer gives no result; otherwise a sorted copy
   * of the features, the layer's other members kept.
   */
  method SortedOccurrences(layer: Option<Collection>, active: Option<Props>) returns (r: Option<Collection>)
    ensures r.None? <==> layer.None?
    ensures layer.Some? ==> (r.value.header == layer.value.header
      && r.value.features == SortBy(layer.value.features, DrawKey(active)))
  {
    if layer.None? {
      return None;
    }
    var fs := layer.value.features;
    var a := new Feature[|fs|](i requires 0 <= i < |fs| => fs[i]);
    assert a[..] == fs;
    SortInPlace(a, DrawKey(active));
    r := Some(Collection(layer.value.header, a[..]));
  }

  /**
   * The draw order is a permutation of the layer; every feature after a
   * selected one is selected too, so the selected occurrence is drawn on
   * top; the others ascend by score, keeping layer order among equals.
   */
  lemma DrawOrder(fs: seq<Feature>, active: Option<Props>)
    ensures var r := SortBy(fs, DrawKey(active));
      && multiset(r) == multiset(fs)
      && (forall i, j :: 0 <= i < j < |r| && Selected(r[i], active) ==> Selected(r[j], active))
      && (forall i, j :: 0 <= i < j < |r| && !Selected(r[j], active) ==>
            !Selected(r[i], active) && Score(StatusOf(r[i].props)) <= Score(StatusOf(r[j].props)))
      && (forall v :: WithKey(r, DrawKey(active), v) == WithKey(fs, DrawKey(active), v))
  {
    var key := DrawKey(active);
    var r := SortBy(fs, key);
    SortByPermutation(fs, key);
    SortBySorted(fs, key);
    forall v
      ensures WithKey(r, key, v) == WithKey(fs, key, v)
    {
      SortByStable(fs, key, v);
    }
    forall i, j | 0 <= i < j < |r|
      ensures Selected(r[i], active) ==> Selected(r[j], active)
      ensures !Selected(r[j], active) ==>
            !Selected(r[i], active) && Score(StatusOf(r[i].props)) <= Score(StatusOf(r[j].props))
    {
      assert key(r[i]) <= key(r[j]);
    }
  }

  // ---------------------------------------------------------------------
  // Selection lookups

  /** The key `layerRefs.current[id]` files a feature under, when its id is truthy. */
  function RefKey(f: Feature): Option<string> {
    if Truthy(IdOf(f.props)) then Some(JsString(IdOf(f.props))) else None
  }

  /** The registration `onEachFeature` makes for one feature. */
  function Register(refs: map<string, nat>, f: Feature, layer: nat): (r: map<string, nat>)
    ensures refs.Keys <= r.Keys
    ensures RefKey(f).Some? ==> RefKey(f).value in r && r[RefKey(f).value] == layer
  {
    match RefKey(f)
    case Some(k) => refs[k := layer]
    case None => refs
  }

  /** The registry after the features of `fs` register in turn, the i-th with layer i. */
  function RegisterAll(refs: map<string, nat>, fs: seq<Feature>): (r: map<string, nat>)
    decreases |fs|
    ensures refs.Keys <= r.Keys
  {
    if fs == [] then refs else Register(RegisterAll(refs, fs[..|fs| - 1]), fs[|fs| - 1], |fs| - 1)
  }

  /**
   * Later registrations overwrite earlier ones: a key names the layer of
   * the last feature filed under it; a key no feature uses keeps its
   * previous entry.
   */
  lemma {:induction false} LastRegistrationWins(refs: map<string, nat>, fs: seq<Feature>, k: string)
    ensures (exists i :: 0 <= i < |fs| && RefKey(fs[i]) == Some(k)) ==>
      var r := RegisterAll(refs, fs);
      k in r && r[k] < |fs| && RefKey(fs[r[k]]) == Some(k)
      && forall j :: r[k] < j < |fs| ==> RefKey(fs[j]) != Some(k)
    ensures (forall i :: 0 <= i < |fs| ==> RefKey(fs[i]) != Some(k)) ==>
      (k in RegisterAll(refs, fs) <==> k in refs)
      && (k in refs ==> RegisterAll(refs, fs)[k] == refs[k])
  {
    if fs != [] {
      var rest := fs[..|fs| - 1];
      LastRegistrationWins(refs, rest, k);
      var before := RegisterAll(refs, rest);
      assert RegisterAll(refs, fs) == Register(before, fs[|fs| - 1], |fs| - 1);
      if RefKey(fs[|fs| - 1]) != Some(k) {
        assert k in RegisterAll(refs, fs) <==> k in before;
        assert k in before ==> RegisterAll(refs, fs)[k] == before[k];
        if exists i :: 0 <= i < |fs| && RefKey(fs[i]) == Some(k) {
          var i :| 0 <= i < |fs| && RefKey(fs[i]) == Some(k);
          assert RefKey(rest[i]) == Some(k);
        }
      }
    }
  }

  /** The layer whose popup the map controller opens for the selection. */
  function PopupTarget(refs: map<string, nat>, active: Option<Props>): (r: Option<nat>)
    ensures r.Some? ==> active.Some? && Truthy(IdOf(active.value)) && r.value in refs.Values
    ensures active.Some? && Truthy(IdOf(active.value)) && JsString(IdOf(active.value)) in refs ==> r.Some?
  {
    if active.Some? && Truthy(IdOf(active.value)) && JsString(IdOf(active.value)) in refs then
      Some(refs[JsString(IdOf(active.value))])
    else None
  }

  /**
   * After the layer's features register, the popup opened for a selection
   * is that of the last feature whose id reads as the same text.
   */
  lemma PopupTargetIsLastMatch(fs: seq<Feature>, active: Option<Props>)
    requires active.Some? && Truthy(IdOf(active.value))
    requires exists i :: 0 <= i < |fs| && RefKey(fs[i]) == Some(JsString(IdOf(active.value)))
    ensures var t := PopupTarget(RegisterAll(map[], fs), active);
      t.Some? && t.value < |fs| && JsString(IdOf(fs[t.value].props)) == JsString(IdOf(active.value))
      && forall j :: t.value < j < |fs| ==> RefKey(fs[j]) != Some(JsString(IdOf(active.value)))
  {
    LastRegistrationWins(map[], fs, JsString(IdOf(active.value)));
  }

  /** The position the map flies to: the first feature with the selected id, as `[lat, lng]`. */
  function FlyTarget(fs: seq<Feature>, active: Option<Props>): (r: Option<LatLng>)
    decreases |fs|
    ensures r.Some? ==>
      active.Some? && exists f :: f in fs && IdOf(f.props) == IdOf(active.value) && r.value == LatLng(f.lat, f.lng)
  {
    if active.None? || fs == [] then None
    else if IdOf(fs[0].props) == IdOf(active.value) then Some(LatLng(fs[0].lat, fs[0].lng))
    else FlyTarget(fs[1..], active)
  }

  /** `FlyTarget` finds the first feature whose id is strictly equal to the selection's, if any. */
  lemma {:induction false} FlyTargetFirstMatch(fs: seq<Feature>, active: Option<Props>) returns (i: nat)
    requires active.Some?
    ensures FlyTarget(fs, active).Some? ==>
      i < |fs| && IdOf(fs[i].props) == IdOf(active.value)
      && FlyTarget(fs, active) == Some(LatLng(fs[i].lat, fs[i].lng))
      && forall j :: 0 <= j < i ==> IdOf(fs[j].props) != IdOf(active.value)
    ensures FlyTarget(fs, active).None? ==> forall j :: 0 <= j < |fs| ==> IdOf(fs[j].props) != IdOf(active.value)
  {
    if fs == [] || IdOf(fs[0].props) == IdOf(active.value) {
      i := 0;
    } else {
      var i' := FlyTargetFirstMatch(fs[1..], active);
      i := i' + 1;
    }
  }

  // ---------------------------------------------------------------------
  // The rendered layer

  /** The fill colour of each marker, in draw order. */
  function Markers(drawn: seq<Feature>, active: Option<Props>): (r: seq<string>)
    ensures |r| == |drawn| && forall i :: 0 <= i < |drawn| ==> r[i] == MarkerFill(drawn[i], active)
    decreases |drawn|
  {
    if drawn == [] then [] else Markers(drawn[..|drawn| - 1], active) + [MarkerFill(drawn[|drawn| - 1], active)]
  }

  /** The popup `onEachFeature` binds to a feature of the layer `all`. */
  function PopupOf(all: seq<Feature>, active: Option<Props>, clock: Clock): Feature --> Popup {
    (f: Feature) requires f in all => ClusterPopup(all, f, active, clock)
  }

  /** The popup of each marker, in draw order. */
  function Popups(drawn: seq<Feature>, popupOf: Feature --> Popup): (r: seq<Popup>)
    requires forall i :: 0 <= i < |drawn| ==> popupOf.requires(drawn[i])
    ensures |r| == |drawn| && forall i :: 0 <= i < |drawn| ==> r[i] == popupOf(drawn[i])
    decreases |drawn|
  {
    if drawn == [] then []
    else
      var init := drawn[..|drawn| - 1];
      assert forall k :: 0 <= k < |init| ==> init[k] == drawn[k];
      Popups(init, popupOf) + [popupOf(drawn[|drawn| - 1])]
  }

  /** The in-place `sort` of a cluster by `data_hora`, newest first, on a fresh copy. */
  method NewestFirst(features: seq<Feature>, clock: Clock) returns (r: seq<Feature>)
    ensures r == SortBy(features, FeatureDateKey(clock))
  {
    var a := new Feature[|features|](i requires 0 <= i < |features| => features[i]);
    assert a[..] == features;
    SortInPlace(a, FeatureDateKey(clock));
    r := a[..];
  }

  /** The map component's mutable part: the `layerRefs` registry. */
  class MapView {
    var layerRefs: map<string, nat>

    constructor ()
      ensures layerRefs == map[]
    {
      layerRefs := map[];
    }

    /**
     * `onEachFeature(feature, layer)`: registers the layer under the
     * feature's id and builds its popup from the co-located features of
     * the whole layer, sorted in place newest first.
     */
    method OnEachFeature(feature: Feature, layer: nat, all: seq<Feature>, active: Option<Props>, clock: Clock)
      returns (popup: Popup)
      requires feature in all
      modifies this
      ensures layerRefs == Register(old(layerRefs), feature, layer)
      ensures popup == ClusterPopup(all, feature, active, clock)
    {
      var id := IdOf(feature.props);
      if Truthy(id) {
        layerRefs := layerRefs[JsString(id) := layer];
      }
      var cluster := Cluster(all, feature);
      var members := NewestFirst(cluster, clock);
      ClusterPopupNonEmpty(all, feature, clock);
      popup := PopupFor(members, active);
    }

    /** Draws the `i`-th feature: its marker, its popup and its registration. */
    method DrawNext(drawn: seq<Feature>, i: nat, all: seq<Feature>, active: Option<Props>, clock: Clock,
                    ghost refs0: map<string, nat>, markers: seq<string>, popups: seq<Popup>)
      returns (markers': seq<string>, popups': seq<Popup>)
      requires i < |drawn| && forall f :: f in drawn ==> f in all
      requires layerRefs == RegisterAll(refs0, drawn[..i])
      requires markers == Markers(drawn[..i], active) && popups == Popups(drawn[..i], PopupOf(all, active, clock))
      modifies this
      ensures layerRefs == RegisterAll(refs0, drawn[..i + 1])
      ensures markers' == Markers(drawn[..i + 1], active) && popups' == Popups(drawn[..i + 1], PopupOf(all, active, clock))
    {
      var popup := OnEachFeature(drawn[i], i, all, active, clock);
      assert drawn[..i + 1][..i] == drawn[..i];
      markers' := markers + [MarkerFill(drawn[i], active)];
      popups' := popups + [popup];
    }

    /**
     * The `GeoJSON` layer over the draw-ordered features: one marker and
     * one popup per feature, registered in turn.
     */
    method Render(drawn: seq<Feature>, all: seq<Feature>, active: Option<Props>, clock: Clock)
      returns (markers: seq<string>, popups: seq<Popup>)
      requires forall f :: f in drawn ==> f in all
      modifies this
      ensures layerRefs == RegisterAll(old(layerRefs), drawn)
      ensures markers == Markers(drawn, active)
      ensures popups == Popups(drawn, PopupOf(all, active, clock))
    {
      markers, popups := [], [];
      ghost var popupOf := PopupOf(all, active, clock);
      assert forall k :: 0 <= k < |drawn| ==> popupOf.requires(drawn[k]);
      var i := 0;
      while i < |drawn|
        invariant 0 <= i <= |drawn|
        invariant layerRefs == RegisterAll(old(layerRefs), drawn[..i])
        invariant markers == Markers(drawn[..i], active)
        invariant popups == Popups(drawn[..i], popupOf)
      {
        markers, popups := DrawNext(drawn, i, all, active, clock, old(layerRefs), markers, popups);
        i := i + 1;
      }
      assert drawn[..|drawn|] == drawn;
    }
  }
}
