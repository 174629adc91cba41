/**
 * The history sidebar: the card background and badge chosen from a
 * status, the newest-first order of the history list, and the list view.
 */
module Sidebar {
  import opened Wrappers
  import opened Text
  import opened JsValues
  import opened Records
  import opened Dates
  import opened StableSort
  import opened MapArea

  /** `getStatusStyle`: the card background of an item. */
  function StatusStyle(status: Option<string>): (r: string)
    ensures r == "bg-slate-50 border-slate-200" <==> Falsy(status)
    ensures r == "bg-red-50 border-red-200 hover:bg-red-100" <==>
      !Falsy(status) && Contains(ToLower(status.value), "não resolvido")
  {
    if Falsy(status) then "bg-slate-50 border-slate-200"
    else
      var s := ToLower(status.value);
      if Contains(s, "não resolvido") then "bg-red-50 border-red-200 hover:bg-red-100"
      else if Contains(s, "em andamento") then "bg-amber-50 border-amber-200 hover:bg-amber-100"
      else "bg-white border-slate-200 hover:bg-slate-50"
  }

  /** The two remaining cards: amber for "em andamento", white otherwise. */
  lemma StatusStyleOtherCases(status: Option<string>)
    requires !Falsy(status) && !Contains(ToLower(status.value), "não resolvido")
    ensures Contains(ToLower(status.value), "em andamento") ==>
      StatusStyle(status) == "bg-amber-50 border-amber-200 hover:bg-amber-100"
    ensures !Contains(ToLower(status.value), "em andamento") ==>
      StatusStyle(status) == "bg-white border-slate-200 hover:bg-slate-50"
  {
  }

  const BadgeDefault := "bg-slate-100 text-slate-600"
  const BadgeGreen := "bg-green-100 text-green-700"
  const BadgeRed := "bg-red-100 text-red-700"
  const BadgeAmber := "bg-amber-100 text-amber-700"

  /**
   * The badge colour by precedence: the last test that matches in
   * `getStatusBadge` decides, so "em andamento" beats "não resolvido",
   * which beats "resolvido". No badge without a status.
   */
  function BadgeClass(status: Option<string>): Option<string> {
    if Falsy(status) then None
    else
      var s := ToLower(status.value);
      if Contains(s, "em andamento") then Some(BadgeAmber)
      else if Contains(s, "não resolvido") then Some(BadgeRed)
      else if Contains(s, "resolvido") then Some(BadgeGreen)
      else Some(BadgeDefault)
  }

  /** `getStatusBadge`: a default colour, overwritten by each test that matches. */
  method StatusBadge(status: Option<string>) returns (r: Option<string>)
    ensures r == BadgeClass(status)
  {
    if Falsy(status) {
      return None;
    }
    var s := ToLower(status.value);
    var colorClass := BadgeDefault;
    if Contains(s, "resolvido") {
      colorClass := BadgeGreen;
    }
    if Contains(s, "não resolvido") {
      colorClass := BadgeRed;
    }
    if Contains(s, "em andamento") {
      colorClass := BadgeAmber;
    }
    r := Some(colorClass);
  }

  /**
   * Every status whose text contains "não resolvido" also contains
   * "resolvido", so the red badge really does override the green one.
   */
  lemma RedBadgeOverridesGreen(s: string)
    requires Contains(ToLower(s), "não resolvido") && !Contains(ToLower(s), "em andamento")
    ensures BadgeClass(Some(s)) == Some(BadgeRed)
    ensures Contains(ToLower(s), "resolvido")
  {
    assert OccursAt("não resolvido", "resolvido", 4);
    ContainsIff("não resolvido", "resolvido");
    ContainsTransitive(ToLower(s), "não resolvido", "resolvido");
  }

  /** A red card always belongs to a status that ranks 2 on the map. */
  lemma RedCardIsPending(status: Option<string>)
    requires StatusStyle(status) == "bg-red-50 border-red-200 hover:bg-red-100"
    ensures Score(status) == 2 && MarkerColor(status) == Red
  {
    NotResolvedIsPending(status.value);
  }

  /**
   * The sidebar and the map classify differently: "Pendente" is red on
   * the map but gets a white card and a grey badge.
   */
  lemma PendingCardNotRed()
    ensures Score(Some("Pendente")) == 2 && MarkerColor(Some("Pendente")) == Red
    ensures StatusStyle(Some("Pendente")) == "bg-white border-slate-200 hover:bg-slate-50"
    ensures BadgeClass(Some("Pendente")) == Some(BadgeDefault)
  {
    LowerPendente();
    assert StartsWith("pendente", "pendente");
    WithoutRM("pendente");
  }

  /** A text without the letters 'r' and 'm' matches none of the sidebar's status words. */
  lemma WithoutRM(s: string)
    requires 'r' !in s && 'm' !in s
    ensures !Contains(s, "não resolvido") && !Contains(s, "em andamento") && !Contains(s, "resolvido")
  {
    NotContainsChar(s, "não resolvido", 'r');
    NotContainsChar(s, "em andamento", 'm');
    NotContainsChar(s, "resolvido", 'r');
  }

  lemma LowerPendente()
    ensures ToLower("Pendente") == "pendente"
  {
    var s := ToLower("Pendente");
    forall i | 0 <= i < 8
      ensures s[i] == "pendente"[i]
    {
      assert s[i] == LowerChar("Pendente"[i]);
    }
  }

  // ---------------------------------------------------------------------
  // Order

  /** The history sort key: newest `data_hora` first. */
  function HistoryKey(clock: Clock): Props -> int {
    (p: Props) => NewestFirstKey(clock, DateOf(p))
  }

  /** `sortedHistory`: a sorted copy of the history, newest first. */
  method SortedHistory(history: seq<Props>, clock: Clock) returns (r: seq<Props>)
    ensures r == SortBy(history, HistoryKey(clock))
  {
    var a := new Props[|history|](i requires 0 <= i < |history| => history[i]);
    assert a[..] == history;
    SortInPlace(a, HistoryKey(clock));
    r := a[..];
  }

  /**
   * The sorted history holds every record as often as the history does,
   * newest first, records of equal date in their original order.
   */
  lemma HistoryNewestFirst(history: seq<Props>, clock: Clock)
    ensures var r := SortBy(history, HistoryKey(clock));
      && multiset(r) == multiset(history)
      && (forall i, j :: 0 <= i < j < |r| ==> ParseDate(clock, DateOf(r[i])) >= ParseDate(clock, DateOf(r[j])))
      && (forall v :: WithKey(r, HistoryKey(clock), v) == WithKey(history, HistoryKey(clock), v))
  {
    var key := HistoryKey(clock);
    var r := SortBy(history, key);
    SortByPermutation(history, key);
    SortBySorted(history, key);
    forall i, j | 0 <= i < j < |r|
      ensures ParseDate(clock, DateOf(r[i])) >= ParseDate(clock, DateOf(r[j]))
    {
      assert key(r[i]) <= key(r[j]);
    }
    forall v
      ensures WithKey(r, key, v) == WithKey(history, key, v)
    {
      SortByStable(history, key, v);
    }
  }

  /**
   * The map popup and the sidebar order by the same date rule: sorting
   * features and then taking their properties gives the sidebar's order
   * of those properties.
   */
  lemma SameOrderAsPopup(features: seq<Feature>, clock: Clock)
    ensures MapSeq(PropsOf, SortBy(features, FeatureDateKey(clock)))
         == SortBy(MapSeq(PropsOf, features), HistoryKey(clock))
  {
    SortByMap(features, FeatureDateKey(clock), PropsOf, HistoryKey(clock));
  }

  // ---------------------------------------------------------------------
  // The list

  /** One history card: the item it selects, its heading, its background and its badge. */
  datatype Card = Card(item: Props, heading: Value, style: string, badge: Option<string>)

  /** What the sidebar shows: a placeholder while loading, otherwise the count and the cards. */
  datatype View = Loading | Listing(count: nat, cards: seq<Card>)

  function CardFor(p: Props): Card {
    Card(p, Or(Get(p, "tipo"), Str("Ocorrência")), StatusStyle(StatusOf(p)), BadgeClass(StatusOf(p)))
  }

  /** The sidebar: nothing but the placeholder while loading; else one card per record, newest first. */
  method Render(history: seq<Props>, loading: bool, clock: Clock) returns (view: View)
    ensures loading <==> view.Loading?
    ensures !loading ==> view == Listing(|history|, MapSeq(CardFor, SortBy(history, HistoryKey(clock))))
    ensures !loading ==> view.count == |view.cards|
    ensures !loading ==> multiset(MapSeq((c: Card) => c.item, view.cards)) == multiset(history)
  {
    if loading {
      return Loading;
    }
    var sorted := SortedHistory(history, clock);
    SortByPermutation(history, HistoryKey(clock));
    var cards := MapSeq(CardFor, sorted);
    assert MapSeq((c: Card) => c.item, cards) == sorted;
    assert |multiset(sorted)| == |multiset(history)|;
    view := Listing(|history|, cards);
  }
}
