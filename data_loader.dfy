/**
 * Loading: the layer files and the names they are stored under, the
 * normalisation of the occurrence properties (legacy prefixed keys copied
 * to their short names, the id falling back to `objectid`), and the
 * extraction of the history list.
 */
module DataLoader {
  import opened Wrappers
  import opened Text
  import opened JsValues
  import opened Records
  import opened StableSort

  /** The prefix the spreadsheet export put in front of every column name. */
  const Prefix: string := "historico_ocorrencias_demonstrativo — Sheet1_"

  const LayerFiles: seq<string> := [
    "curvas_nivel_1_50000.geojson",
    "ocorrencias_consolidated.geojson",
    "rodovia_br101_trecho_ViaSul.geojson",
    "trechos_inundacao.geojson"
  ]

  const OccurrenceLayer: string := "ocorrencias_consolidated"

  // ---------------------------------------------------------------------
  // Layer names

  /** The index of the first '.' at or after `i`, or the length when there is none. */
  function DotIndex(file: string, i: nat): (d: nat)
    requires i <= |file|
    ensures i <= d <= |file| && (d < |file| ==> file[d] == '.')
    ensures forall k :: i <= k < d ==> file[k] != '.'
    decreases |file| - i
  {
    if i == |file| || file[i] == '.' then i else DotIndex(file, i + 1)
  }

  /** `file.split('.')[0]`: the text before the first '.', or all of it. */
  function LayerName(file: string): (r: string)
    ensures StartsWith(file, r) && '.' !in r
    ensures |r| < |file| ==> file[|r|] == '.'
  {
    file[..DotIndex(file, 0)]
  }

  /** The name of `base.ext` is `base`, whenever `base` holds no '.'. */
  lemma LayerNameOfBase(base: string, ext: string)
    requires '.' !in base
    ensures LayerName(base + "." + ext) == base
  {
    var file := base + "." + ext;
    assert file[|base|] == '.';
    assert forall k :: 0 <= k < |base| ==> file[k] == base[k] && base[k] != '.';
    assert file[..|base|] == base;
  }

  lemma FileOfName(base: string, file: string)
    requires '.' !in base && file == base + ".geojson"
    ensures LayerName(file) == base
  {
    assert file == base + "." + "geojson";
    LayerNameOfBase(base, "geojson");
  }

  lemma ContourLayerName() ensures LayerName(LayerFiles[0]) == "curvas_nivel_1_50000" {
    FileOfName("curvas_nivel_1_50000", LayerFiles[0]);
  }

  lemma OccurrenceLayerName() ensures LayerName(LayerFiles[1]) == OccurrenceLayer {
    FileOfName(OccurrenceLayer, LayerFiles[1]);
  }

  lemma HighwayLayerName() ensures LayerName(LayerFiles[2]) == "rodovia_br101_trecho_ViaSul" {
    FileOfName("rodovia_br101_trecho_ViaSul", LayerFiles[2]);
  }

  lemma FloodLayerName() ensures LayerName(LayerFiles[3]) == "trechos_inundacao" {
    FileOfName("trechos_inundacao", LayerFiles[3]);
  }

  /** The names the four files are stored under. */
  lemma LayerNames()
    ensures LayerName(LayerFiles[0]) == "curvas_nivel_1_50000"
    ensures LayerName(LayerFiles[1]) == OccurrenceLayer
    ensures LayerName(LayerFiles[2]) == "rodovia_br101_trecho_ViaSul"
    ensures LayerName(LayerFiles[3]) == "trechos_inundacao"
  {
    ContourLayerName();
    OccurrenceLayerName();
    HighwayLayerName();
    FloodLayerName();
  }

  /** No two files share a layer name; only the second file is the occurrence layer. */
  lemma LayerNamesDistinct()
    ensures forall i, j :: 0 <= i < j < |LayerFiles| ==> LayerName(LayerFiles[i]) != LayerName(LayerFiles[j])
    ensures forall i :: 0 <= i < |LayerFiles| ==> (LayerName(LayerFiles[i]) == OccurrenceLayer <==> i == 1)
  {
    LayerNames();
    var n0, n1, n2, n3 := LayerName(LayerFiles[0]), LayerName(LayerFiles[1]), LayerName(LayerFiles[2]), LayerName(LayerFiles[3]);
    assert |n0| == 20 && |n1| == 24 && |n2| == 27 && |n3| == 17;
  }

  // ---------------------------------------------------------------------
  // Property normalisation

  predicate HasPrefix(k: string) {
    StartsWith(k, Prefix)
  }

  /** `key.replace(prefix, '')` for a key that starts with the prefix. */
  function Suffix(k: string): (r: string)
    requires HasPrefix(k)
    ensures Prefix + r == k
  {
    k[|Prefix|..]
  }

  /** The short names of the keys of `done` that carry the prefix. */
  function SuffixesOf(done: set<string>): set<string> {
    set k | k in done && HasPrefix(k) :: Suffix(k)
  }

  /** No key carries the prefix twice, so no copy reads a value an earlier copy wrote. */
  predicate NoDoublePrefix(p: Props) {
    forall k :: k in p && HasPrefix(k) ==> !HasPrefix(Suffix(k))
  }

  /** The properties once the prefixed keys of `done` are copied to their short names. */
  function CopiedFrom(p: Props, done: set<string>): Props
    requires done <= p.Keys
  {
    map k | k in p.Keys + SuffixesOf(done) :: if Prefix + k in done then p[Prefix + k] else p[k]
  }

  /** The properties after all copies and the id fallback. */
  function Normalized(p: Props): (q: Props)
    ensures q.Keys == p.Keys + SuffixesOf(p.Keys) + {IdKey}
    ensures Truthy(Get(CopiedFrom(p, p.Keys), IdKey)) ==> q[IdKey] == CopiedFrom(p, p.Keys)[IdKey]
    ensures !Truthy(Get(CopiedFrom(p, p.Keys), IdKey)) ==> q[IdKey] == Get(CopiedFrom(p, p.Keys), "objectid")
  {
    var c := CopiedFrom(p, p.Keys);
    c[IdKey := Or(Get(c, IdKey), Get(c, "objectid"))]
  }

  /**
   * What the normalisation promises whatever the key order: the prefixed
   * keys stay, their short names are added, `id_ocorrencia` is set, and
   * every other key keeps its value. Without doubly prefixed keys the
   * result is exactly `Normalized(p)`.
   */
  predicate NormalizedFrom(p: Props, q: Props) {
    && q.Keys == p.Keys + SuffixesOf(p.Keys) + {IdKey}
    && (forall k :: k in p && k !in SuffixesOf(p.Keys) && k != IdKey ==> q[k] == p[k])
    && (NoDoublePrefix(p) ==> q == Normalized(p))
  }

  lemma SuffixesGrow(p: Props, done: set<string>, key: string)
    requires HasPrefix(key)
    ensures SuffixesOf(done + {key}) == SuffixesOf(done) + {Suffix(key)}
  {
    forall s | s in SuffixesOf(done + {key})
      ensures s in SuffixesOf(done) + {Suffix(key)}
    {
      var k :| k in done + {key} && HasPrefix(k) && Suffix(k) == s;
    }
  }

  lemma SuffixesSame(done: set<string>, key: string)
    requires !HasPrefix(key)
    ensures SuffixesOf(done + {key}) == SuffixesOf(done)
  {
  }

  /** A suffix is a suffix of exactly the key that is the prefix followed by it. */
  lemma SuffixMember(done: set<string>, s: string)
    ensures s in SuffixesOf(done) <==> Prefix + s in done
  {
    if Prefix + s in done {
      assert HasPrefix(Prefix + s);
      assert Suffix(Prefix + s) == s;
    }
  }

  /**
   * The state of the copy after the keys of `done` are visited: their
   * short names are added; keys no prefixed key names keep their values;
   * and, without doubly prefixed keys, the copy is `CopiedFrom(p, done)`.
   */
  ghost predicate Visited(p: Props, done: set<string>, props: Props) {
    && done <= p.Keys
    && props.Keys == p.Keys + SuffixesOf(done)
    && (forall k :: k in p && k !in SuffixesOf(p.Keys) ==> props[k] == p[k])
    && (NoDoublePrefix(p) ==> props == CopiedFrom(p, done))
  }

  /** Visiting a key that carries the prefix keeps `Visited`, without doubly prefixed keys. */
  lemma {:induction false} CopyStepExact(p: Props, done: set<string>, key: string)
    requires done <= p.Keys && key in p && key !in done && HasPrefix(key) && NoDoublePrefix(p)
    ensures key in CopiedFrom(p, done) && CopiedFrom(p, done)[key] == p[key]
    ensures CopiedFrom(p, done)[Suffix(key) := CopiedFrom(p, done)[key]] == CopiedFrom(p, done + {key})
  {
    assert HasPrefix(Prefix + key) && Suffix(Prefix + key) == key;
    assert Prefix + key !in p;
    SuffixesGrow(p, done, key);
    var s := Suffix(key);
    forall k | k in p.Keys + SuffixesOf(done + {key})
      ensures CopiedFrom(p, done)[s := p[key]][k] == CopiedFrom(p, done + {key})[k]
    {
      if k != s {
        SuffixMember(done, k);
        SuffixMember(done + {key}, k);
      }
    }
  }

  /** Visiting a key without the prefix changes nothing. */
  lemma SkipStepExact(p: Props, done: set<string>, key: string)
    requires done <= p.Keys && key in p && key !in done && !HasPrefix(key)
    ensures CopiedFrom(p, done) == CopiedFrom(p, done + {key})
  {
    SuffixesSame(done, key);
    forall k | k in p.Keys + SuffixesOf(done)
      ensures CopiedFrom(p, done)[k] == CopiedFrom(p, done + {key})[k]
    {
      assert Prefix + k != key by {
        assert HasPrefix(Prefix + k);
      }
    }
  }

  lemma VisitStart(p: Props)
    ensures Visited(p, {}, p)
  {
    assert SuffixesOf({}) == {};
    assert CopiedFrom(p, {}) == p;
  }

  /** Once every key is visited, the id fallback completes the normalisation. */
  lemma VisitFinish(p: Props, props: Props)
    requires Visited(p, p.Keys, props)
    ensures NormalizedFrom(p, props[IdKey := Or(Get(props, IdKey), Get(props, "objectid"))])
  {
  }

  /** One iteration of the `forEach` keeps `Visited`, whatever key it picks. */
  lemma VisitStep(p: Props, done: set<string>, props: Props, key: string)
    requires Visited(p, done, props) && key in p && key !in done
    ensures key in props
    ensures HasPrefix(key) ==> Visited(p, done + {key}, props[Suffix(key) := props[key]])
    ensures !HasPrefix(key) ==> Visited(p, done + {key}, props)
  {
    if HasPrefix(key) {
      SuffixesGrow(p, done, key);
      SuffixMember(p.Keys, Suffix(key));
      if NoDoublePrefix(p) {
        CopyStepExact(p, done, key);
      }
    } else {
      SuffixesSame(done, key);
      if NoDoublePrefix(p) {
        SkipStepExact(p, done, key);
      }
    }
  }

  /**
   * The properties of one feature: a copy whose keys are visited in any
   * order, each prefixed key copied to its short name, then the id
   * fallback.
   */
  method NormalizeProps(p: Props) returns (q: Props)
    ensures NormalizedFrom(p, q)
  {
    var newProps := p;
    var keys := p.Keys;
    VisitStart(p);
    while keys != {}
      invariant keys <= p.Keys
      invariant Visited(p, p.Keys - keys, newProps)
      decreases |keys|
    {
      var key :| key in keys;
      VisitStep(p, p.Keys - keys, newProps, key);
      if HasPrefix(key) {
        newProps := newProps[Suffix(key) := newProps[key]];
      }
      VisitedGrows(p.Keys, keys, key);
      keys := keys - {key};
    }
    assert p.Keys - keys == p.Keys;
    VisitFinish(p, newProps);
    q := newProps[IdKey := Or(Get(newProps, IdKey), Get(newProps, "objectid"))];
  }

  /** Taking `key` off the keys still to visit adds it to the visited ones. */
  lemma VisitedGrows(all: set<string>, keys: set<string>, key: string)
    requires key in keys && keys <= all
    ensures all - (keys - {key}) == (all - keys) + {key}
  {
  }

  lemma ShortKeysUnprefixed()
    ensures !HasPrefix(IdKey) && !HasPrefix("objectid")
  {
  }

  /** Without doubly prefixed keys, the only prefixed keys after normalising are the original ones. */
  lemma NormalizedPrefixedKeys(p: Props, k: string)
    requires NoDoublePrefix(p) && k in Normalized(p) && HasPrefix(k)
    ensures k in p
  {
    ShortKeysUnprefixed();
    SuffixMember(p.Keys, k);
    assert HasPrefix(Prefix + k) && Suffix(Prefix + k) == k;
  }

  /** The copied properties agree with the normalised ones everywhere but the id. */
  lemma RecopyAgrees(p: Props, k: string)
    requires NoDoublePrefix(p) && k in Normalized(p) && k != IdKey
    ensures k in CopiedFrom(Normalized(p), Normalized(p).Keys)
    ensures CopiedFrom(Normalized(p), Normalized(p).Keys)[k] == Normalized(p)[k]
  {
    var q := Normalized(p);
    SuffixMember(q.Keys, k);
    SuffixMember(p.Keys, k);
    if Prefix + k in q.Keys {
      assert HasPrefix(Prefix + k);
      NormalizedPrefixedKeys(p, Prefix + k);
      ShortKeysUnprefixed();
      assert Prefix + k != IdKey;
      SuffixMember(p.Keys, Prefix + k);
    }
  }

  /** Copying again adds no key. */
  lemma RecopyKeys(p: Props)
    requires NoDoublePrefix(p)
    ensures CopiedFrom(Normalized(p), Normalized(p).Keys).Keys == Normalized(p).Keys
  {
    var q := Normalized(p);
    forall s | s in SuffixesOf(q.Keys)
      ensures s in q.Keys
    {
      SuffixMember(q.Keys, s);
      assert HasPrefix(Prefix + s);
      NormalizedPrefixedKeys(p, Prefix + s);
      SuffixMember(p.Keys, s);
    }
  }

  /** The id fallback applied again yields the id already set. */
  lemma RefallbackId(p: Props)
    requires NoDoublePrefix(p)
    ensures var q := Normalized(p); var c2 := CopiedFrom(q, q.Keys);
      Or(Get(c2, IdKey), Get(c2, "objectid")) == q[IdKey]
  {
    var q := Normalized(p);
    var c := CopiedFrom(p, p.Keys);
    var c2 := CopiedFrom(q, q.Keys);
    ShortKeysUnprefixed();
    RecopyKeys(p);
    if "objectid" in q {
      RecopyAgrees(p, "objectid");
    }
    assert Get(c2, "objectid") == Get(c, "objectid");
    SuffixMember(q.Keys, IdKey);
    SuffixMember(p.Keys, IdKey);
    if Prefix + IdKey in q.Keys {
      assert HasPrefix(Prefix + IdKey);
      NormalizedPrefixedKeys(p, Prefix + IdKey);
      assert Get(c2, IdKey) == Get(c, IdKey);
    } else {
      assert Get(c2, IdKey) == q[IdKey];
    }
  }

  /**
   * Normalising twice changes nothing more, provided no key carries the
   * prefix twice: the short names already hold their prefixed keys'
   * values and the id already holds its fallback.
   */
  lemma NormalizeIdempotent(p: Props)
    requires NoDoublePrefix(p)
    ensures NoDoublePrefix(Normalized(p))
    ensures Normalized(Normalized(p)) == Normalized(p)
  {
    var q := Normalized(p);
    forall k | k in q && HasPrefix(k)
      ensures !HasPrefix(Suffix(k))
    {
      NormalizedPrefixedKeys(p, k);
    }
    var c2 := CopiedFrom(q, q.Keys);
    RecopyKeys(p);
    forall k | k in q && k != IdKey
      ensures c2[k] == q[k]
    {
      RecopyAgrees(p, k);
    }
    RefallbackId(p);
    assert Normalized(q) == q;
  }

  /** `g` is `f` with normalised properties, in the same place. */
  predicate FeatureNormalized(f: Feature, g: Feature) {
    g.lng == f.lng && g.lat == f.lat && NormalizedFrom(f.props, g.props)
  }

  /** Feature by feature, `r` is `fs` normalised. */
  predicate AllNormalized(fs: seq<Feature>, r: seq<Feature>)
    decreases |fs|
  {
    |r| == |fs| && (fs == [] || (AllNormalized(fs[..|fs| - 1], r[..|r| - 1]) && FeatureNormalized(fs[|fs| - 1], r[|r| - 1])))
  }

  /** `AllNormalized` holds position by position. */
  lemma {:induction false} AllNormalizedAt(fs: seq<Feature>, r: seq<Feature>, i: nat)
    requires AllNormalized(fs, r) && i < |fs|
    ensures |r| == |fs| && FeatureNormalized(fs[i], r[i])
    decreases |fs|
  {
    if i < |fs| - 1 {
      AllNormalizedAt(fs[..|fs| - 1], r[..|r| - 1], i);
    }
  }

  /**
   * The `features.map` over the occurrence layer: every feature keeps its
   * place and position and gets normalised properties.
   */
  method NormalizeFeatures(fs: seq<Feature>) returns (r: seq<Feature>)
    ensures AllNormalized(fs, r)
  {
    r := [];
    for i := 0 to |fs|
      invariant AllNormalized(fs[..i], r)
    {
      var props := NormalizeProps(fs[i].props);
      assert fs[..i + 1][..i] == fs[..i];
      r := r + [fs[i].(props := props)];
      assert r[..|r| - 1] == r[..i];
    }
    assert fs[..|fs|] == fs;
  }

  // ---------------------------------------------------------------------
  // Loading

  /** `fetchJSON`: the parsed list, or `[]` when the request fails. */
  function HistoryOrEmpty(fetched: Option<seq<Props>>): (r: seq<Props>)
    ensures fetched.None? ==> r == []
  {
    fetched.GetOr([])
  }

  /** How the occurrence layer is stored: missing if the fetch failed, else with normalised features. */
  predicate LoadedOccurrences(fetched: Option<Collection>, loaded: Option<Collection>) {
    && (fetched.None? <==> loaded.None?)
    && (loaded.Some? ==>
          loaded.value.header == fetched.value.header && AllNormalized(fetched.value.features, loaded.value.features))
  }

  /** No later file in `files` is stored under the same name as the `i`-th. */
  predicate LastWithName(files: seq<string>, i: nat)
    requires i < |files|
  {
    forall j :: i < j < |files| ==> LayerName(files[j]) != LayerName(files[i])
  }

  /** The names the files of `files` are stored under. */
  function NamesOf(files: seq<string>): set<string>
    decreases |files|
  {
    if files == [] then {} else NamesOf(files[..|files| - 1]) + {LayerName(files[|files| - 1])}
  }

  /** A name is in `NamesOf(files)` exactly when some file has it. */
  lemma {:induction false} NamesOfMembers(files: seq<string>, k: string)
    ensures k in NamesOf(files) <==> exists i :: 0 <= i < |files| && LayerName(files[i]) == k
    decreases |files|
  {
    if files != [] {
      var init := files[..|files| - 1];
      NamesOfMembers(init, k);
      if exists i :: 0 <= i < |files| && LayerName(files[i]) == k {
        var i :| 0 <= i < |files| && LayerName(files[i]) == k;
        if i < |init| {
          assert LayerName(init[i]) == k;
        }
      }
    }
  }

  /** Being the last file with its name among more files implies it among fewer. */
  lemma LastWithNameShrink(files: seq<string>, i: nat, j: nat)
    requires j < i < |files| && LastWithName(files[..i + 1], j)
    ensures LastWithName(files[..i], j) && LayerName(files[i]) != LayerName(files[j])
  {
    assert files[..i + 1][i] == files[i];
    forall k | j < k < i
      ensures LayerName(files[..i][k]) != LayerName(files[..i][j])
    {
      assert files[..i][k] == files[..i + 1][k];
    }
  }

  /** How the layer named `name` is stored after fetching `fetched`. */
  predicate StoredAs(name: string, fetched: Option<Collection>, stored: Option<Collection>) {
    if name == OccurrenceLayer then LoadedOccurrences(fetched, stored) else stored == fetched
  }

  /** The body of the loop for one file: normalise the occurrence layer, keep the others. */
  method LoadLayer(name: string, fetched: Option<Collection>) returns (stored: Option<Collection>)
    ensures StoredAs(name, fetched, stored)
  {
    stored := fetched;
    if name == OccurrenceLayer && fetched.Some? {
      var features := NormalizeFeatures(fetched.value.features);
      stored := Some(fetched.value.(features := features));
    }
  }

  /** The dictionary after storing `results[j]` under the name of `files[j]`, in order. */
  function Assemble(files: seq<string>, results: seq<Option<Collection>>): (layers: map<string, Option<Collection>>)
    requires |results| == |files|
    ensures layers.Keys == NamesOf(files)
    decreases |files|
  {
    if files == [] then map[]
    else Assemble(files[..|files| - 1], results[..|results| - 1])[LayerName(files[|files| - 1]) := results[|results| - 1]]
  }

  /** Each file's name maps to the result of the last file with that name. */
  lemma {:induction false} AssembleLast(files: seq<string>, results: seq<Option<Collection>>, i: nat)
    requires |results| == |files| && i < |files| && LastWithName(files, i)
    ensures LayerName(files[i]) in Assemble(files, results)
    ensures Assemble(files, results)[LayerName(files[i])] == results[i]
    decreases |files|
  {
    var n := |files| - 1;
    if i < n {
      LastWithNameShrink(files, n, i);
      assert files[..n + 1] == files;
      AssembleLast(files[..n], results[..n], i);
    }
  }

  /**
   * The `for` loop of `loadAllData`: each file is fetched and stored under
   * its name; a later file with the same name would replace an earlier one.
   */
  method LoadLayers(files: seq<string>, fetch: string -> Option<Collection>)
    returns (layers: map<string, Option<Collection>>)
    ensures layers.Keys == NamesOf(files)
    ensures forall i :: 0 <= i < |files| ==> LayerName(files[i]) in layers
    ensures forall i :: 0 <= i < |files| && LastWithName(files, i) ==>
      StoredAs(LayerName(files[i]), fetch(files[i]), layers[LayerName(files[i])])
  {
    layers := map[];
    ghost var results: seq<Option<Collection>> := [];
    for i := 0 to |files|
      invariant |results| == i
      invariant AllStored(files[..i], fetch, results)
      invariant layers == Assemble(files[..i], results)
    {
      var name := LayerName(files[i]);
      var data := LoadLayer(name, fetch(files[i]));
      assert files[..i + 1][..i] == files[..i];
      layers := layers[name := data];
      results := results + [data];
      assert results[..i] == results[..|results| - 1];
    }
    assert files[..|files|] == files;
    AllStoredAt(files, fetch, results);
    AssembledLayers(files, fetch, results);
  }

  /** Each result is what its file's fetch stores under the file's name. */
  predicate AllStored(files: seq<string>, fetch: string -> Option<Collection>, results: seq<Option<Collection>>)
    requires |results| == |files|
    decreases |files|
  {
    files != [] ==>
      && AllStored(files[..|files| - 1], fetch, results[..|results| - 1])
      && StoredAs(LayerName(files[|files| - 1]), fetch(files[|files| - 1]), results[|results| - 1])
  }

  lemma {:induction false} AllStoredAt(files: seq<string>, fetch: string -> Option<Collection>, results: seq<Option<Collection>>)
    requires |results| == |files| && AllStored(files, fetch, results)
    ensures forall j :: 0 <= j < |files| ==> StoredAs(LayerName(files[j]), fetch(files[j]), results[j])
    decreases |files|
  {
    if files != [] {
      var n := |files| - 1;
      AllStoredAt(files[..n], fetch, results[..n]);
      assert forall j :: 0 <= j < n ==> files[..n][j] == files[j] && results[..n][j] == results[j];
    }
  }

  /** Reading the assembled dictionary back: every name present, each holding its last file's result. */
  lemma AssembledLayers(files: seq<string>, fetch: string -> Option<Collection>, results: seq<Option<Collection>>)
    requires |results| == |files|
    requires forall j :: 0 <= j < |files| ==> StoredAs(LayerName(files[j]), fetch(files[j]), results[j])
    ensures forall i :: 0 <= i < |files| ==> LayerName(files[i]) in Assemble(files, results)
    ensures forall i :: 0 <= i < |files| && LastWithName(files, i) ==>
      StoredAs(LayerName(files[i]), fetch(files[i]), Assemble(files, results)[LayerName(files[i])])
  {
    var layers := Assemble(files, results);
    forall i | 0 <= i < |files|
      ensures LayerName(files[i]) in layers
    {
      NamesOfMembers(files, LayerName(files[i]));
    }
    forall i | 0 <= i < |files| && LastWithName(files, i)
      ensures StoredAs(LayerName(files[i]), fetch(files[i]), layers[LayerName(files[i])])
    {
      AssembleLast(files, results, i);
      assert StoredAs(LayerName(files[i]), fetch(files[i]), results[i]);
    }
  }

  /**
   * `loadAllData`: the four layers stored under their names, each as
   * fetched (`None` where `fetchGeoJSON` gives null) except the occurrence
   * layer, whose features are normalised; the history is that layer's
   * properties, or the separately fetched list when the layer is missing.
   */
  method LoadAllData(fetch: string -> Option<Collection>, historyJson: Option<seq<Props>>)
    returns (layers: map<string, Option<Collection>>, historyFull: seq<Props>)
    ensures layers.Keys == NamesOf(LayerFiles)
    ensures forall i :: 0 <= i < |LayerFiles| ==> LayerName(LayerFiles[i]) in layers
    ensures forall i :: 0 <= i < |LayerFiles| && i != 1 ==> layers[LayerName(LayerFiles[i])] == fetch(LayerFiles[i])
    ensures OccurrenceLayer in layers && LoadedOccurrences(fetch(LayerFiles[1]), layers[OccurrenceLayer])
    ensures layers[OccurrenceLayer].Some? ==> historyFull == MapSeq(PropsOf, layers[OccurrenceLayer].value.features)
    ensures layers[OccurrenceLayer].None? ==> historyFull == HistoryOrEmpty(historyJson)
  {
    layers := LoadLayers(LayerFiles, fetch);
    LayerNamesDistinct();
    assert LastWithName(LayerFiles, 1);
    forall i | 0 <= i < |LayerFiles|
      ensures LastWithName(LayerFiles, i)
    {
    }
    if layers[OccurrenceLayer].Some? {
      historyFull := MapSeq(PropsOf, layers[OccurrenceLayer].value.features);
    } else {
      historyFull := HistoryOrEmpty(historyJson);
    }
  }
}
