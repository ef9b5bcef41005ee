/** The citations of a reply (services/geminiService.ts, lines 100-115): every
    retrieval chunk contributes its web reference and then its maps reference,
    in chunk order, and the list is then reduced to one source per URI through
    a JavaScript `Map` keyed by URI. */
module Sources {
  import opened Wrappers
  import opened Types
  import opened JsMap

  /** A `{ uri, title }` reference inside a retrieval chunk. */
  datatype Reference = Reference(uri: string, title: string)

  /** One retrieval chunk: a web reference, a maps reference, either or neither. */
  datatype GroundingChunk = GroundingChunk(web: Option<Reference>, maps: Option<Reference>)

  /** The sources one chunk contributes: web first, then maps. */
  function ChunkSources(chunk: GroundingChunk): (r: seq<GroundingSource>)
    ensures |r| == (if chunk.web.Some? then 1 else 0) + (if chunk.maps.Some? then 1 else 0)
    ensures chunk.web.Some? ==> r[0] == GroundingSource(chunk.web.value.uri, chunk.web.value.title, Web)
    ensures chunk.maps.Some? ==> r[|r| - 1] == GroundingSource(chunk.maps.value.uri, chunk.maps.value.title, Maps)
  {
    (if chunk.web.Some? then [GroundingSource(chunk.web.value.uri, chunk.web.value.title, Web)] else [])
    + (if chunk.maps.Some? then [GroundingSource(chunk.maps.value.uri, chunk.maps.value.title, Maps)] else [])
  }

  /** The sources of a run of chunks, in order. */
  function Flatten(chunks: seq<GroundingChunk>): (r: seq<GroundingSource>)
    ensures |r| <= 2 * |chunks|
  {
    if chunks == [] then []
    else Flatten(chunks[..|chunks| - 1]) + ChunkSources(chunks[|chunks| - 1])
  }

  /** Flattening distributes over concatenation of chunk runs. */
  lemma {:induction false} FlattenAppend(a: seq<GroundingChunk>, b: seq<GroundingChunk>)
    ensures Flatten(a + b) == Flatten(a) + Flatten(b)
    decreases |b|
  {
    if b == [] {
      assert a + b == a;
    } else {
      var b' := b[..|b| - 1];
      assert (a + b)[..|a + b| - 1] == a + b';
      FlattenAppend(a, b');
    }
  }

  /** A source is collected exactly when some chunk contributes it. */
  lemma {:induction false} FlattenMembership(chunks: seq<GroundingChunk>, s: GroundingSource)
    ensures s in Flatten(chunks) <==> exists i :: 0 <= i < |chunks| && s in ChunkSources(chunks[i])
    decreases |chunks|
  {
    if chunks != [] {
      var init := chunks[..|chunks| - 1];
      FlattenMembership(init, s);
      if s in Flatten(init) {
        var i :| 0 <= i < |init| && s in ChunkSources(init[i]);
        assert chunks[i] == init[i];
      }
      if exists i :: 0 <= i < |chunks| && s in ChunkSources(chunks[i]) {
        var i :| 0 <= i < |chunks| && s in ChunkSources(chunks[i]);
        if i < |init| {
          assert init[i] == chunks[i];
        }
      }
    }
  }

  /** The `for ... of` loop over `groundingMetadata.groundingChunks`; absent
      chunks (any missing link of `response.candidates?.[0]?.groundingMetadata`)
      give no sources. */
  method CollectSources(chunks: Option<seq<GroundingChunk>>) returns (sources: seq<GroundingSource>)
    ensures chunks.None? ==> sources == []
    ensures chunks.Some? ==> sources == Flatten(chunks.value)
  {
    sources := [];
    if chunks.Some? {
      var cs := chunks.value;
      for i := 0 to |cs|
        invariant sources == Flatten(cs[..i])
      {
        var chunk := cs[i];
        assert cs[..i + 1][..i] == cs[..i];
        if chunk.web.Some? {
          sources := sources + [GroundingSource(chunk.web.value.uri, chunk.web.value.title, Web)];
        }
        if chunk.maps.Some? {
          sources := sources + [GroundingSource(chunk.maps.value.uri, chunk.maps.value.title, Maps)];
        }
      }
      assert cs[..|cs|] == cs;
    }
  }

  /** `new Map(sources.map(item => [item.uri, item]))`: the pairs are set one
      after another, left to right. */
  function UriMap(sources: seq<GroundingSource>): (m: OrderedMap<string, GroundingSource>)
    ensures m.Valid()
  {
    if sources == [] then Empty()
    else
      var last := sources[|sources| - 1];
      UriMap(sources[..|sources| - 1]).Set(last.uri, last)
  }

  /** `Array.from(map.values())`: the deduplicated sources. */
  function Dedup(sources: seq<GroundingSource>): (r: seq<GroundingSource>)
    ensures |r| <= |sources|
  {
    UriMapSize(sources);
    UriMap(sources).Values()
  }

  /** Each source adds at most one key. */
  lemma {:induction false} UriMapSize(sources: seq<GroundingSource>)
    ensures |UriMap(sources).keys| <= |sources|
    decreases |sources|
  {
    if sources != [] {
      UriMapSize(sources[..|sources| - 1]);
    }
  }

  /** The position of the first source with URI `u`, or -1. */
  ghost function FirstIndex(sources: seq<GroundingSource>, u: string): (i: int)
    ensures -1 <= i < |sources|
    ensures i == -1 ==> forall k :: 0 <= k < |sources| ==> sources[k].uri != u
    ensures i >= 0 ==> sources[i].uri == u && forall k :: 0 <= k < i ==> sources[k].uri != u
  {
    if sources == [] then -1
    else
      var init := sources[..|sources| - 1];
      var f := FirstIndex(init, u);
      if f >= 0 then f
      else if sources[|sources| - 1].uri == u then |sources| - 1
      else -1
  }

  /** The position of the last source with URI `u`, or -1. */
  ghost function LastIndex(sources: seq<GroundingSource>, u: string): (i: int)
    ensures -1 <= i < |sources|
    ensures i == -1 ==> forall k :: 0 <= k < |sources| ==> sources[k].uri != u
    ensures i >= 0 ==> sources[i].uri == u && forall k :: i < k < |sources| ==> sources[k].uri != u
  {
    if sources == [] then -1
    else if sources[|sources| - 1].uri == u then |sources| - 1
    else LastIndex(sources[..|sources| - 1], u)
  }

  /** The map built from the sources has a key for exactly the URIs present. */
  lemma {:induction false} UriMapKeys(sources: seq<GroundingSource>)
    ensures forall u :: u in UriMap(sources).entries <==> LastIndex(sources, u) >= 0
    decreases |sources|
  {
    if sources != [] {
      var init := sources[..|sources| - 1];
      UriMapKeys(init);
    }
  }

  /** Each key holds the last source with that URI. */
  lemma {:induction false} UriMapValues(sources: seq<GroundingSource>)
    ensures forall u :: u in UriMap(sources).entries ==>
              LastIndex(sources, u) >= 0 && UriMap(sources).entries[u] == sources[LastIndex(sources, u)]
    decreases |sources|
  {
    if sources != [] {
      var init := sources[..|sources| - 1];
      var last := sources[|sources| - 1];
      UriMapValues(init);
      forall u | u in UriMap(sources).entries && u != last.uri
        ensures LastIndex(sources, u) >= 0 && UriMap(sources).entries[u] == sources[LastIndex(sources, u)]
      {
        assert u in UriMap(init).entries;
        assert sources[LastIndex(init, u)] == init[LastIndex(init, u)];
      }
    }
  }

  /** A URI already present keeps its first position when more sources follow. */
  lemma FirstIndexStable(sources: seq<GroundingSource>, u: string)
    requires sources != [] && LastIndex(sources[..|sources| - 1], u) >= 0
    ensures FirstIndex(sources, u) == FirstIndex(sources[..|sources| - 1], u)
  {
  }

  /** A URI first seen in the last source first appears there. */
  lemma FirstIndexNew(sources: seq<GroundingSource>)
    requires sources != []
    requires sources[|sources| - 1].uri !in UriMap(sources[..|sources| - 1]).entries
    ensures FirstIndex(sources, sources[|sources| - 1].uri) == |sources| - 1
  {
    var init := sources[..|sources| - 1];
    var u := sources[|sources| - 1].uri;
    UriMapKeys(init);
    assert LastIndex(init, u) == -1;
  }

  /** The keys are listed in order of their URIs' first appearance. */
  lemma {:induction false} UriMapOrder(sources: seq<GroundingSource>)
    ensures var keys := UriMap(sources).keys;
            forall i, j :: 0 <= i < j < |keys| ==> FirstIndex(sources, keys[i]) < FirstIndex(sources, keys[j])
    decreases |sources|
  {
    if sources != [] {
      var init := sources[..|sources| - 1];
      var last := sources[|sources| - 1];
      var m0 := UriMap(init);
      var keys := UriMap(sources).keys;
      UriMapOrder(init);
      UriMapKeys(init);
      assert UriMap(sources) == m0.Set(last.uri, last);
      forall i | 0 <= i < |m0.keys| ensures FirstIndex(sources, m0.keys[i]) == FirstIndex(init, m0.keys[i]) {
        assert m0.keys[i] in m0.entries;
        FirstIndexStable(sources, m0.keys[i]);
      }
      if last.uri !in m0.entries {
        FirstIndexNew(sources);
        assert keys == m0.keys + [last.uri];
        forall i, j | 0 <= i < j < |keys| ensures FirstIndex(sources, keys[i]) < FirstIndex(sources, keys[j]) {
          assert keys[i] == m0.keys[i];
          if j < |m0.keys| {
            assert keys[j] == m0.keys[j];
            assert FirstIndex(init, m0.keys[i]) < FirstIndex(init, m0.keys[j]);
          } else {
            assert FirstIndex(init, m0.keys[i]) < |init|;
          }
        }
      } else {
        assert keys == m0.keys;
        forall i, j | 0 <= i < j < |keys| ensures FirstIndex(sources, keys[i]) < FirstIndex(sources, keys[j]) {
          assert FirstIndex(init, m0.keys[i]) < FirstIndex(init, m0.keys[j]);
        }
      }
    }
  }

  /** The deduplicated list carries the map's keys, in order. */
  lemma DedupFollowsKeys(sources: seq<GroundingSource>)
    ensures var r := Dedup(sources);
            var keys := UriMap(sources).keys;
            |r| == |keys| && forall i :: 0 <= i < |r| ==> r[i].uri == keys[i]
  {
    var m := UriMap(sources);
    UriMapValues(sources);
    forall i | 0 <= i < |m.keys| ensures m.entries[m.keys[i]].uri == m.keys[i] {
      assert m.keys[i] in m.entries;
    }
  }

  /** Every URI of the input is represented in the deduplicated list. */
  lemma DedupCovers(sources: seq<GroundingSource>)
    ensures forall k :: 0 <= k < |sources| ==> exists i :: 0 <= i < |Dedup(sources)| && Dedup(sources)[i].uri == sources[k].uri
  {
    var m := UriMap(sources);
    var r := Dedup(sources);
    UriMapKeys(sources);
    DedupFollowsKeys(sources);
    forall k | 0 <= k < |sources| ensures exists i :: 0 <= i < |r| && r[i].uri == sources[k].uri {
      var u := sources[k].uri;
      assert u in m.keys;
      var i :| 0 <= i < |m.keys| && m.keys[i] == u;
      assert r[i].uri == u;
    }
  }

  /** What the deduplicated list holds: one source per URI, every URI of the
      input represented, each URI by the LAST source that carried it (a later
      `set` overwrites the value), in order of each URI's FIRST appearance. */
  lemma DedupSpec(sources: seq<GroundingSource>)
    ensures var r := Dedup(sources);
            && (forall i, j :: 0 <= i < j < |r| ==> r[i].uri != r[j].uri)
            && (forall k :: 0 <= k < |sources| ==> exists i :: 0 <= i < |r| && r[i].uri == sources[k].uri)
            && (forall i :: 0 <= i < |r| ==> LastIndex(sources, r[i].uri) >= 0 && r[i] == sources[LastIndex(sources, r[i].uri)])
            && (forall i, j :: 0 <= i < j < |r| ==> FirstIndex(sources, r[i].uri) < FirstIndex(sources, r[j].uri))
  {
    var m := UriMap(sources);
    DedupFollowsKeys(sources);
    DedupCovers(sources);
    UriMapValues(sources);
    UriMapOrder(sources);
    forall i | 0 <= i < |m.keys| ensures m.keys[i] in m.entries {
    }
  }

  /** The URIs of a list of sources, in order. */
  function Uris(sources: seq<GroundingSource>): (us: seq<string>)
    ensures |us| == |sources|
    ensures forall i :: 0 <= i < |sources| ==> us[i] == sources[i].uri
  {
    seq(|sources|, i requires 0 <= i < |sources| => sources[i].uri)
  }

  /** No URI repeats. */
  predicate DistinctUris(sources: seq<GroundingSource>) {
    forall i, j :: 0 <= i < j < |sources| ==> sources[i].uri != sources[j].uri
  }

  /** When no URI repeats, the map lists every URI in order and keeps every source. */
  lemma {:induction false} UriMapOfDistinct(sources: seq<GroundingSource>)
    requires DistinctUris(sources)
    ensures UriMap(sources).keys == Uris(sources)
    ensures forall i :: 0 <= i < |sources| ==> UriMap(sources).entries[sources[i].uri] == sources[i]
    decreases |sources|
  {
    if sources != [] {
      var init := sources[..|sources| - 1];
      var last := sources[|sources| - 1];
      UriMapOfDistinct(init);
      var m0 := UriMap(init);
      assert last.uri !in m0.entries by {
        forall i | 0 <= i < |init| ensures m0.keys[i] != last.uri {
          assert init[i] == sources[i];
        }
      }
      var m := m0.Set(last.uri, last);
      assert UriMap(sources) == m;
      assert Uris(sources) == Uris(init) + [last.uri];
      forall i | 0 <= i < |init| ensures m.entries[sources[i].uri] == sources[i] {
        assert init[i] == sources[i];
      }
    }
  }

  /** Deduplicating a list whose URIs are already distinct changes nothing. */
  lemma DedupOfDistinct(sources: seq<GroundingSource>)
    requires DistinctUris(sources)
    ensures Dedup(sources) == sources
  {
    UriMapOfDistinct(sources);
  }

  /** Deduplicating twice is deduplicating once. */
  lemma DedupIdempotent(sources: seq<GroundingSource>)
    ensures Dedup(Dedup(sources)) == Dedup(sources)
  {
    DedupSpec(sources);
    DedupOfDistinct(Dedup(sources));
  }

  /** Two sources with one URI collapse to the later one: the later title wins. */
  lemma DedupPairSameUri(a: GroundingSource, b: GroundingSource)
    requires a.uri == b.uri
    ensures Dedup([a, b]) == [b]
  {
    var m0 := UriMap([]);
    assert [a][..0] == [];
    var m1 := UriMap([a]);
    assert m1 == m0.Set(a.uri, a);
    assert [a, b][..1] == [a];
    var m2 := UriMap([a, b]);
    assert m2 == m1.Set(b.uri, b);
    assert m2.keys == [a.uri];
  }

  /** Two sources with different URIs are both kept, in order. */
  lemma DedupPairDistinctUris(a: GroundingSource, b: GroundingSource)
    requires a.uri != b.uri
    ensures Dedup([a, b]) == [a, b]
  {
    DedupOfDistinct([a, b]);
  }
}
