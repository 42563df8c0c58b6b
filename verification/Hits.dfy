/** Hit counters, one pair per sample source. */
module Hits {

  datatype HitCounts = HitCounts(total: nat, self: nat)

  const NO_HITS := HitCounts(0, 0)

  /** Indexed by source id; sources behind the end have no hits. */
  type SourceHits = seq<HitCounts>

  function Get(hits: SourceHits, source: nat): HitCounts {
    if source < |hits| then hits[source] else NO_HITS
  }

  function Total(hits: SourceHits, source: nat): nat { Get(hits, source).total }

  function Self(hits: SourceHits, source: nat): nat { Get(hits, source).self }

  /** Writing to a source behind the end enlarges the counters. */
  function Enlarged(hits: SourceHits, source: nat): (r: SourceHits)
    ensures source < |r|
    ensures forall t: nat :: Get(r, t) == Get(hits, t)
    decreases source + 1 - |hits|
  {
    if source < |hits| then hits else Enlarged(hits + [NO_HITS], source)
  }

  function AddTotal(hits: SourceHits, source: nat): (r: SourceHits)
    ensures forall t: nat :: Total(r, t) == Total(hits, t) + if t == source then 1 else 0
    ensures forall t: nat :: Self(r, t) == Self(hits, t)
  {
    var h := Enlarged(hits, source);
    assert forall t: nat :: Get(h, t) == Get(hits, t);
    h[source := h[source].(total := h[source].total + 1)]
  }

  function AddSelf(hits: SourceHits, source: nat): (r: SourceHits)
    ensures forall t: nat :: Self(r, t) == Self(hits, t) + if t == source then 1 else 0
    ensures forall t: nat :: Total(r, t) == Total(hits, t)
  {
    var h := Enlarged(hits, source);
    assert forall t: nat :: Get(h, t) == Get(hits, t);
    h[source := h[source].(self := h[source].self + 1)]
  }
}
