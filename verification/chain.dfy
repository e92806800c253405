/** The resolution chain of `process_star_catalog`: four catalogue stages
    in a fixed order, each scanning the star's name candidates and stopping
    at the first probe that returns a tuple. */
module Chain {
  import opened Optional
  import opened Search
  import opened Photometry
  import opened Probes

  /** The four sources, in the order the chain consults them. */
  datatype Catalogue = GCPD | APASS | Tycho2 | Simbad

  /** The value written to the `source` column. */
  function Label(c: Catalogue): string
  {
    match c
    case GCPD => "GCPD"
    case APASS => "APASS"
    case Tycho2 => "Tycho-2"
    case Simbad => "Simbad"
  }

  /** Position of a catalogue in the chain. */
  function Rank(c: Catalogue): nat
  {
    match c
    case GCPD => 0
    case APASS => 1
    case Tycho2 => 2
    case Simbad => 3
  }

  /** The remote services, as functions of what is asked: a VizieR query
      by object name and catalogue identifier, and a Simbad query by name. */
  datatype Oracle = Oracle(vizier: (string, string) -> VizierResponse, simbad: string -> SimbadResponse)

  /** One probe call of a stage.  The three VizieR stages query their
      catalogue identifiers; only Tycho-2 uses the Tycho row rule. */
  function Probe(o: Oracle, c: Catalogue, name: string): (r: Option<Sample>)
    ensures c != Tycho2 && r.Some? ==> r.value.bv.Some?
    ensures c == Tycho2 && r.Some? ==> r.value.ub.None? && (r.value.vmag.Some? <==> r.value.bv.Some?)
  {
    match c
    case GCPD => TryCatalog(o.vizier(name, "II/215"), false)
    case APASS => TryCatalog(o.vizier(name, "II/336/apass9"), false)
    case Tycho2 => TryCatalog(o.vizier(name, "I/259/tyc2"), true)
    case Simbad => TrySimbad(o.simbad(name))
  }

  /** A probe call that was made: which catalogue, for which name. */
  datatype Query = Query(catalogue: Catalogue, name: string)

  /** The per-star variables `bv`, `ub`, `vmag`, `source` and
      `resolved_used`, plus the log of probe calls made so far.  `source`
      is `None` while it still holds its initial value `"none"`. */
  datatype ChainState = ChainState(
    bv: Option<Float>,
    ub: Option<Float>,
    vmag: Option<Float>,
    source: Option<Catalogue>,
    resolvedUsed: Option<string>,
    queried: seq<Query>)

  const Initial: ChainState := ChainState(None, None, None, None, None, [])

  /** The candidate at which a stage's loop breaks, with the tuple it got. */
  function StageHit(o: Oracle, c: Catalogue, cands: seq<string>): Option<(nat, Sample)>
  {
    FirstSome(cands, (n: string) => Probe(o, c, n))
  }

  /** No candidate gets a tuple from catalogue `c`. */
  predicate NoHit(o: Oracle, c: Catalogue, cands: seq<string>)
  {
    forall i :: 0 <= i < |cands| ==> Probe(o, c, cands[i]).None?
  }

  /** Tycho-2 gives no colour index: no candidate gets a tuple, or the
      first tuple it gives has `bv = None`. */
  predicate NoTychoColour(o: Oracle, cands: seq<string>)
  {
    var hit := StageHit(o, Tycho2, cands);
    hit.None? || hit.value.1.bv.None?
  }

  /** The queries made for catalogue `c`, one per name, in order. */
  function Queries(c: Catalogue, names: seq<string>): (qs: seq<Query>)
    ensures |qs| == |names|
    ensures forall i :: 0 <= i < |names| ==> qs[i] == Query(c, names[i])
  {
    seq(|names|, i requires 0 <= i < |names| => Query(c, names[i]))
  }

  /** A stage recorded itself: it names catalogue `c` and one of the
      star's names, and only Tycho-2 can do so without a colour index. */
  predicate StageCredited(st: ChainState, c: Catalogue, cands: seq<string>)
  {
    && st.source == Some(c)
    && st.resolvedUsed.Some? && st.resolvedUsed.value in cands
    && (c != Tycho2 ==> st.bv.Some?)
  }

  /** One stage: try each candidate in order; the first probe that returns
      a tuple overwrites `bv`, `ub`, `vmag`, `source` and `resolved_used`
      and ends the stage. */
  function RunStage(st: ChainState, o: Oracle, c: Catalogue, cands: seq<string>): (r: ChainState)
    ensures |st.queried| <= |r.queried| <= |st.queried| + |cands|
    ensures r.queried[..|st.queried|] == st.queried
    ensures r == st.(queried := r.queried) || StageCredited(r, c, cands)
  {
    match StageHit(o, c, cands)
    case None => st.(queried := st.queried + Queries(c, cands))
    case Some(hit) =>
      ChainState(hit.1.bv, hit.1.ub, hit.1.vmag, Some(c), Some(cands[hit.0]),
                 st.queried + Queries(c, cands[..hit.0 + 1]))
  }

  /** A stage after the first: it runs only while `bv` is still `None`. */
  function StageIfUnresolved(st: ChainState, o: Oracle, c: Catalogue, cands: seq<string>): (r: ChainState)
    ensures st.bv.Some? ==> r == st
    ensures st.bv.None? && |cands| > 0 ==> |r.queried| > |st.queried|
  {
    if st.bv.None? then RunStage(st, o, c, cands) else st
  }

  /** The chain: GCPD always runs, then APASS, Tycho-2 and Simbad, each
      only while `bv` is still `None`. */
  function Resolve(cands: seq<string>, o: Oracle): (r: ChainState)
    ensures r.source.Some? <==> r.resolvedUsed.Some?
    ensures r.resolvedUsed.Some? ==> r.resolvedUsed.value in cands
    ensures r.source.None? ==> r.bv.None? && r.ub.None? && r.vmag.None?
    ensures r.bv.None? && r.source.Some? ==> r.source == Some(Tycho2)
    ensures cands == [] ==> r == Initial
  {
    var s1 := RunStage(Initial, o, GCPD, cands);
    var s2 := StageIfUnresolved(s1, o, APASS, cands);
    var s3 := StageIfUnresolved(s2, o, Tycho2, cands);
    StageIfUnresolved(s3, o, Simbad, cands)
  }
}

module ChainProperties {
  import opened Optional
  import opened Photometry
  import opened Probes
  import opened Chain

  /** Some probe call for catalogue `c` was made. */
  predicate Consulted(st: ChainState, c: Catalogue)
  {
    exists q :: q in st.queried && q.catalogue == c
  }

  /** Probe calls are logged stage by stage, never returning to an earlier
      catalogue. */
  predicate InChainOrder(qs: seq<Query>)
  {
    forall i, j :: 0 <= i < j < |qs| ==> Rank(qs[i].catalogue) <= Rank(qs[j].catalogue)
  }

  lemma StageHitNone(o: Oracle, c: Catalogue, cands: seq<string>)
    ensures StageHit(o, c, cands).None? <==> NoHit(o, c, cands)
  {
    var f := (n: string) => Probe(o, c, n);
    assert forall i :: 0 <= i < |cands| ==> f(cands[i]) == Probe(o, c, cands[i]);
  }

  /** What one stage does to the state: a miss only logs every candidate;
      a hit at the first candidate `k` that gets a tuple logs the first
      `k + 1` candidates and records that candidate, the catalogue and the
      tuple. */
  lemma RunStageEffect(st: ChainState, o: Oracle, c: Catalogue, cands: seq<string>)
    ensures var hit := StageHit(o, c, cands); var r := RunStage(st, o, c, cands);
      && (hit.None? <==> NoHit(o, c, cands))
      && (hit.None? ==> r == st.(queried := st.queried + Queries(c, cands)))
      && (hit.Some? ==>
            var k := hit.value.0;
            && k < |cands|
            && Probe(o, c, cands[k]) == Some(hit.value.1)
            && (forall j :: 0 <= j < k ==> Probe(o, c, cands[j]).None?)
            && r.source == Some(c) && r.resolvedUsed == Some(cands[k])
            && r.bv == hit.value.1.bv && r.ub == hit.value.1.ub && r.vmag == hit.value.1.vmag
            && r.queried == st.queried + Queries(c, cands[..k + 1]))
  {
    StageHitNone(o, c, cands);
    var hit := StageHit(o, c, cands);
    if hit.Some? {
      var k := hit.value.0;
      var f := (n: string) => Probe(o, c, n);
      assert f(cands[k]) == Some(hit.value.1);
      assert forall j :: 0 <= j < k ==> f(cands[j]) == Probe(o, c, cands[j]);
    }
  }

  /** Appending a stage's queries adds exactly that catalogue, and only when
      there was a candidate to try. */
  lemma ConsultedAfterStage(st: ChainState, o: Oracle, c: Catalogue, cands: seq<string>, d: Catalogue)
    ensures Consulted(RunStage(st, o, c, cands), d) <==> Consulted(st, d) || (d == c && |cands| > 0)
  {
    RunStageEffect(st, o, c, cands);
    var r := RunStage(st, o, c, cands);
    var hit := StageHit(o, c, cands);
    var names := if hit.Some? then cands[..hit.value.0 + 1] else cands;
    var qs := Queries(c, names);
    assert r.queried == st.queried + qs;
    if d == c && |cands| > 0 {
      assert qs[0] in r.queried;
    }
    if Consulted(r, d) {
      var q :| q in r.queried && q.catalogue == d;
      if q !in st.queried {
        assert q in qs;
      }
    }
  }

  /** The state the chain keeps between stages, for a chain whose log so
      far only holds catalogues ranked at most `top`. */
  ghost predicate Coherent(st: ChainState, cands: seq<string>, top: nat)
  {
    && (st.source.None? <==> st.resolvedUsed.None?)
    && (st.resolvedUsed.Some? ==> st.resolvedUsed.value in cands)
    && (st.source.None? ==> st.bv.None? && st.ub.None? && st.vmag.None?)
    && (st.bv.None? && st.source.Some? ==> st.source == Some(Tycho2))
    && InChainOrder(st.queried)
    && (forall q :: q in st.queried ==> Rank(q.catalogue) <= top && q.name in cands)
  }

  /** Appending one stage's queries to a log of stages ranked at most
      that stage keeps the log in chain order and on the star's names. */
  lemma AppendStageQueries(prev: seq<Query>, qs: seq<Query>, c: Catalogue, cands: seq<string>)
    requires InChainOrder(prev)
    requires forall q :: q in prev ==> Rank(q.catalogue) <= Rank(c) && q.name in cands
    requires forall i :: 0 <= i < |qs| ==> qs[i].catalogue == c && qs[i].name in cands
    ensures InChainOrder(prev + qs)
    ensures forall q :: q in prev + qs ==> Rank(q.catalogue) <= Rank(c) && q.name in cands
  {
    var all := prev + qs;
    forall i, j | 0 <= i < j < |all|
      ensures Rank(all[i].catalogue) <= Rank(all[j].catalogue)
    {
      if j >= |prev| {
        assert all[j] == qs[j - |prev|];
        if i < |prev| {
          assert all[i] in prev;
        } else {
          assert all[i] == qs[i - |prev|];
        }
      }
    }
    forall q | q in all
      ensures Rank(q.catalogue) <= Rank(c) && q.name in cands
    {
      if q !in prev {
        var i :| 0 <= i < |all| && all[i] == q;
        assert all[i] == qs[i - |prev|];
      }
    }
  }

  lemma {:induction false} RunStageCoherent(st: ChainState, o: Oracle, c: Catalogue, cands: seq<string>)
    requires Coherent(st, cands, Rank(c))
    ensures Coherent(RunStage(st, o, c, cands), cands, Rank(c))
  {
    RunStageEffect(st, o, c, cands);
    var r := RunStage(st, o, c, cands);
    var hit := StageHit(o, c, cands);
    var names := if hit.Some? then cands[..hit.value.0 + 1] else cands;
    var qs := Queries(c, names);
    assert r.queried == st.queried + qs;
    assert forall i :: 0 <= i < |qs| ==> qs[i] == Query(c, names[i]) && names[i] in cands;
    AppendStageQueries(st.queried, qs, c, cands);
  }

  lemma GuardedStageCoherent(st: ChainState, o: Oracle, c: Catalogue, cands: seq<string>, top: nat)
    requires Coherent(st, cands, top) && top <= Rank(c)
    ensures Coherent(StageIfUnresolved(st, o, c, cands), cands, Rank(c))
  {
    assert Coherent(st, cands, Rank(c));
    if st.bv.None? {
      RunStageCoherent(st, o, c, cands);
    }
  }

  /** What the chain's outcome always satisfies: a source is recorded
      exactly when a candidate is; the recorded candidate is one of the
      star's names; with no source every photometric value is unset; the
      only way to end with a source but no `bv` is a Tycho-2 tuple without
      a colour index; and the probe calls run stage by stage, only for the
      star's own names. */
  lemma {:induction false} ResolveInvariants(cands: seq<string>, o: Oracle)
    ensures var r := Resolve(cands, o);
      && (r.source.None? <==> r.resolvedUsed.None?)
      && (r.resolvedUsed.Some? ==> r.resolvedUsed.value in cands)
      && (r.source.None? ==> r.bv.None? && r.ub.None? && r.vmag.None?)
      && (r.bv.None? && r.source.Some? ==> r.source == Some(Tycho2))
      && InChainOrder(r.queried)
      && (forall q :: q in r.queried ==> q.name in cands)
  {
    assert Coherent(Initial, cands, 0);
    var s1 := RunStage(Initial, o, GCPD, cands);
    RunStageCoherent(Initial, o, GCPD, cands);
    var s2 := StageIfUnresolved(s1, o, APASS, cands);
    GuardedStageCoherent(s1, o, APASS, cands, 0);
    var s3 := StageIfUnresolved(s2, o, Tycho2, cands);
    GuardedStageCoherent(s2, o, Tycho2, cands, 1);
    GuardedStageCoherent(s3, o, Simbad, cands, 2);
  }

  /** Whether a stage leaves `bv` unset: a standard-mode or Simbad stage
      does exactly when no candidate gets a tuple; Tycho-2 does when it
      gives no colour index. */
  lemma StageBv(st: ChainState, o: Oracle, c: Catalogue, cands: seq<string>)
    requires st.bv.None?
    ensures RunStage(st, o, c, cands).bv.None? <==>
      (if c == Tycho2 then NoTychoColour(o, cands) else NoHit(o, c, cands))
  {
    RunStageEffect(st, o, c, cands);
  }

  /** Which catalogue the chain ends up crediting: the first one, in chain
      order, whose first tuple carries a colour index.  A Tycho-2 tuple
      without one is credited only when Simbad then finds nothing. */
  lemma {:induction false} ChainOutcome(cands: seq<string>, o: Oracle)
    ensures var r := Resolve(cands, o);
      && (!NoHit(o, GCPD, cands) ==> r.source == Some(GCPD) && r.bv.Some?)
      && (NoHit(o, GCPD, cands) && !NoHit(o, APASS, cands) ==> r.source == Some(APASS) && r.bv.Some?)
      && (NoHit(o, GCPD, cands) && NoHit(o, APASS, cands) && !NoTychoColour(o, cands) ==>
            r.source == Some(Tycho2) && r.bv.Some?)
      && (NoHit(o, GCPD, cands) && NoHit(o, APASS, cands) && NoTychoColour(o, cands) && !NoHit(o, Simbad, cands) ==>
            r.source == Some(Simbad) && r.bv.Some?)
      && (NoHit(o, GCPD, cands) && NoHit(o, APASS, cands) && NoTychoColour(o, cands) && NoHit(o, Simbad, cands) ==>
            r.bv.None? && (r.source == Some(Tycho2) <==> StageHit(o, Tycho2, cands).Some?)
            && (r.source.None? <==> StageHit(o, Tycho2, cands).None?))
  {
    var s1 := RunStage(Initial, o, GCPD, cands);
    RunStageEffect(Initial, o, GCPD, cands);
    StageBv(Initial, o, GCPD, cands);
    if s1.bv.None? {
      var s2 := RunStage(s1, o, APASS, cands);
      RunStageEffect(s1, o, APASS, cands);
      StageBv(s1, o, APASS, cands);
      if s2.bv.None? {
        var s3 := RunStage(s2, o, Tycho2, cands);
        RunStageEffect(s2, o, Tycho2, cands);
        StageBv(s2, o, Tycho2, cands);
        if s3.bv.None? {
          RunStageEffect(s3, o, Simbad, cands);
          StageBv(s3, o, Simbad, cands);
        }
      }
    }
  }

  /** `bv` stays unset exactly when GCPD, APASS and Simbad give no tuple for
      any candidate and Tycho-2 gives no colour index. */
  lemma NoColourIndexIff(cands: seq<string>, o: Oracle)
    ensures Resolve(cands, o).bv.None? <==>
      NoHit(o, GCPD, cands) && NoHit(o, APASS, cands) && NoTychoColour(o, cands) && NoHit(o, Simbad, cands)
  {
    ChainOutcome(cands, o);
  }

  /** The credited catalogue never comes after one that would have given a
      colour index: every earlier standard-mode stage found nothing, and
      Simbad is credited only when Tycho-2 gave no colour index. */
  lemma WinnerBeatsEarlierCatalogues(cands: seq<string>, o: Oracle, c: Catalogue, d: Catalogue)
    requires Resolve(cands, o).source == Some(c)
    requires Rank(d) < Rank(c)
    ensures d != Tycho2 ==> NoHit(o, d, cands)
    ensures d == Tycho2 ==> NoTychoColour(o, cands)
  {
    ChainOutcome(cands, o);
  }

  /** A GCPD tuple for some candidate settles the star: the first such
      candidate is recorded, `bv` is set, and the only probe calls made are
      GCPD's, for that candidate and the ones before it. */
  lemma GcpdHitEndsChain(cands: seq<string>, o: Oracle)
    requires !NoHit(o, GCPD, cands)
    ensures var r := Resolve(cands, o);
      exists k :: 0 <= k < |cands|
        && Probe(o, GCPD, cands[k]).Some?
        && (forall j :: 0 <= j < k ==> Probe(o, GCPD, cands[j]).None?)
        && r.source == Some(GCPD) && r.resolvedUsed == Some(cands[k]) && r.bv.Some?
        && r.queried == Queries(GCPD, cands[..k + 1])
    ensures var r := Resolve(cands, o);
      !Consulted(r, APASS) && !Consulted(r, Tycho2) && !Consulted(r, Simbad)
  {
    RunStageEffect(Initial, o, GCPD, cands);
    var r := Resolve(cands, o);
    var hit := StageHit(o, GCPD, cands);
    var k := hit.value.0;
    assert Probe(o, GCPD, cands[k]).Some?;
    assert r == RunStage(Initial, o, GCPD, cands);
    assert [] + Queries(GCPD, cands[..k + 1]) == Queries(GCPD, cands[..k + 1]);
    forall q | q in r.queried
      ensures q.catalogue == GCPD
    {
    }
  }

  /** A stage is consulted exactly when there is a name to try and every
      earlier stage left `bv` unset. */
  lemma {:induction false} StageConsultedIff(cands: seq<string>, o: Oracle)
    ensures var r := Resolve(cands, o);
      && (Consulted(r, GCPD) <==> |cands| > 0)
      && (Consulted(r, APASS) <==> |cands| > 0 && NoHit(o, GCPD, cands))
      && (Consulted(r, Tycho2) <==> |cands| > 0 && NoHit(o, GCPD, cands) && NoHit(o, APASS, cands))
      && (Consulted(r, Simbad) <==>
            |cands| > 0 && NoHit(o, GCPD, cands) && NoHit(o, APASS, cands) && NoTychoColour(o, cands))
  {
    var s1 := RunStage(Initial, o, GCPD, cands);
    var s2 := StageIfUnresolved(s1, o, APASS, cands);
    var s3 := StageIfUnresolved(s2, o, Tycho2, cands);
    ConsultedPerStage(cands, o);
    StageBv(Initial, o, GCPD, cands);
    if s1.bv.None? { StageBv(s1, o, APASS, cands); }
    if s2.bv.None? { StageBv(s2, o, Tycho2, cands); }
  }

  /** The same, stated in terms of the `bv` each stage leaves behind. */
  lemma {:induction false} ConsultedPerStage(cands: seq<string>, o: Oracle)
    ensures var s1 := RunStage(Initial, o, GCPD, cands);
      var s2 := StageIfUnresolved(s1, o, APASS, cands);
      var s3 := StageIfUnresolved(s2, o, Tycho2, cands);
      var r := Resolve(cands, o);
      && (Consulted(r, GCPD) <==> |cands| > 0)
      && (Consulted(r, APASS) <==> |cands| > 0 && s1.bv.None?)
      && (Consulted(r, Tycho2) <==> |cands| > 0 && s1.bv.None? && s2.bv.None?)
      && (Consulted(r, Simbad) <==> |cands| > 0 && s1.bv.None? && s2.bv.None? && s3.bv.None?)
  {
    var s1 := RunStage(Initial, o, GCPD, cands);
    var s2 := StageIfUnresolved(s1, o, APASS, cands);
    var s3 := StageIfUnresolved(s2, o, Tycho2, cands);
    var r := StageIfUnresolved(s3, o, Simbad, cands);
    forall d: Catalogue
      ensures Consulted(s1, d) <==> d == GCPD && |cands| > 0
    {
      ConsultedAfterStage(Initial, o, GCPD, cands, d);
    }
    forall d: Catalogue
      ensures Consulted(s2, d) <==> Consulted(s1, d) || (d == APASS && |cands| > 0 && s1.bv.None?)
    {
      GuardedConsulted(s1, o, APASS, cands, d);
    }
    forall d: Catalogue
      ensures Consulted(s3, d) <==> Consulted(s2, d) || (d == Tycho2 && |cands| > 0 && s2.bv.None?)
    {
      GuardedConsulted(s2, o, Tycho2, cands, d);
    }
    forall d: Catalogue
      ensures Consulted(r, d) <==> Consulted(s3, d) || (d == Simbad && |cands| > 0 && s3.bv.None?)
    {
      GuardedConsulted(s3, o, Simbad, cands, d);
    }
  }

  /** A guarded stage adds its catalogue to the log exactly when it runs
      and has a name to try. */
  lemma GuardedConsulted(st: ChainState, o: Oracle, c: Catalogue, cands: seq<string>, d: Catalogue)
    ensures Consulted(StageIfUnresolved(st, o, c, cands), d) <==>
      Consulted(st, d) || (d == c && |cands| > 0 && st.bv.None?)
  {
    if st.bv.None? { ConsultedAfterStage(st, o, c, cands, d); }
  }

  /** The credited candidate is recorded together with what the credited
      catalogue returned for it: `resolved_used` is the first candidate
      that catalogue gave a tuple for, and `bv`, `ub`, `vmag` are that
      tuple. */
  ghost predicate CreditsFirstHit(st: ChainState, o: Oracle, cands: seq<string>)
  {
    st.source.Some? ==>
      exists k :: 0 <= k < |cands|
        && st.resolvedUsed == Some(cands[k])
        && Probe(o, st.source.value, cands[k]) == Some(Sample(st.bv, st.ub, st.vmag))
        && forall j :: 0 <= j < k ==> Probe(o, st.source.value, cands[j]).None?
  }

  lemma StageCreditsFirstHit(st: ChainState, o: Oracle, c: Catalogue, cands: seq<string>)
    requires CreditsFirstHit(st, o, cands)
    ensures CreditsFirstHit(StageIfUnresolved(st, o, c, cands), o, cands)
  {
    if st.bv.None? {
      RunStageEffect(st, o, c, cands);
      var r := RunStage(st, o, c, cands);
      var hit := StageHit(o, c, cands);
      if hit.Some? {
        assert Sample(r.bv, r.ub, r.vmag) == hit.value.1;
      }
    }
  }

  /** Within the credited catalogue, candidates are tried in order: the
      recorded name is the first one it gave a tuple for, and the recorded
      values are exactly that tuple. */
  lemma {:induction false} WinnerIsFirstCandidate(cands: seq<string>, o: Oracle)
    ensures CreditsFirstHit(Resolve(cands, o), o, cands)
  {
    var s1 := RunStage(Initial, o, GCPD, cands);
    StageCreditsFirstHit(Initial, o, GCPD, cands);
    assert s1 == StageIfUnresolved(Initial, o, GCPD, cands);
    var s2 := StageIfUnresolved(s1, o, APASS, cands);
    StageCreditsFirstHit(s1, o, APASS, cands);
    var s3 := StageIfUnresolved(s2, o, Tycho2, cands);
    StageCreditsFirstHit(s2, o, Tycho2, cands);
    StageCreditsFirstHit(s3, o, Simbad, cands);
  }

  /** A Tycho-2 tuple without a colour index (a row missing `BTmag` or
      `VTmag`) still ends the Tycho-2 stage and credits Tycho-2 with that
      candidate; Simbad is then tried, and overrides the credit only if it
      answers. */
  lemma TychoTupleWithoutColourFallsThrough(cands: seq<string>, o: Oracle)
    requires NoHit(o, GCPD, cands) && NoHit(o, APASS, cands)
    requires StageHit(o, Tycho2, cands).Some? && StageHit(o, Tycho2, cands).value.1.bv.None?
    ensures Consulted(Resolve(cands, o), Simbad)
    ensures NoHit(o, Simbad, cands) ==>
      var r := Resolve(cands, o);
      && r.source == Some(Tycho2) && r.bv.None? && r.ub.None? && r.vmag.None?
      && r.resolvedUsed == Some(cands[StageHit(o, Tycho2, cands).value.0])
    ensures !NoHit(o, Simbad, cands) ==> Resolve(cands, o).source == Some(Simbad)
  {
    ChainOutcome(cands, o);
    StageConsultedIff(cands, o);
    RunStageEffect(Initial, o, GCPD, cands);
    var s1 := RunStage(Initial, o, GCPD, cands);
    RunStageEffect(s1, o, APASS, cands);
    var s2 := RunStage(s1, o, APASS, cands);
    RunStageEffect(s2, o, Tycho2, cands);
    var s3 := RunStage(s2, o, Tycho2, cands);
    RunStageEffect(s3, o, Simbad, cands);
  }

  /** A concrete Tycho-2 answer: the first row lacks `VTmag`, the second
      has both magnitudes. */
  function TychoAnswer(): seq<Row>
  {
    [ map["BTmag" := Num(Finite(1.0))],
      map["BTmag" := Num(Finite(1.0)), "VTmag" := Num(Finite(0.5))] ]
  }

  /** Services that know the star only in Tycho-2. */
  function TychoOnlyOracle(): Oracle
  {
    Oracle((name: string, catalog: string) => if catalog == "I/259/tyc2" then Tables([TychoAnswer()]) else Tables([]),
           (name: string) => NoResult)
  }

  /** On that answer the chain ends with `source = Tycho-2` and no colour
      index, although the second row would have given `B-V = 0.5`: the
      first row's all-`None` tuple ends the scan. */
  lemma TychoQuirkExample()
    ensures TychoRow(TychoAnswer()[1]).value.bv == Some(Finite(0.5))
    ensures var r := Resolve(["HD 1"], TychoOnlyOracle());
      && r.source == Some(Tycho2) && r.bv.None? && r.resolvedUsed == Some("HD 1")
      && Consulted(r, Simbad)
  {
    var o := TychoOnlyOracle();
    var cands := ["HD 1"];
    assert Probe(o, GCPD, "HD 1").None?;
    assert Probe(o, APASS, "HD 1").None?;
    assert Probe(o, Simbad, "HD 1").None?;
    assert TychoRow(TychoAnswer()[0]) == Some(Sample(None, None, None));
    assert Probe(o, Tycho2, "HD 1") == Some(Sample(None, None, None));
    assert StageHit(o, Tycho2, cands) == Some((0, Sample(None, None, None)));
    TychoTupleWithoutColourFallsThrough(cands, o);
  }
}
