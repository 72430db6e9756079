/** One permuter: the scores and hashes it remembers, which results it reports,
    and the worker's habit of dropping sources it believes nobody wants. */
module Permuter {

  import opened Prelude

  datatype Options = Options(baseScore: int, bestOnly: bool, betterOnly: bool,
                             scoreThreshold: Option<int>, needAllSources: bool)

  /** An evaluated candidate; a stripped one has neither hash nor source. */
  datatype CandidateResult = CandidateResult(score: int, hash: Option<string>, source: Option<string>)

  /** What a permuter remembers. */
  datatype Memory = Memory(best: int, hashes: set<string>)

  predicate ShouldOutput(o: Options, m: Memory, r: CandidateResult) {
    && r.score <= o.baseScore
    && r.hash.Some?
    && r.source.Some?
    && !(r.score > m.best && o.bestOnly)
    && (r.score < o.baseScore || (r.score == o.baseScore && !o.betterOnly))
    && (o.scoreThreshold.None? || r.score < o.scoreThreshold.value)
    && r.hash.value !in m.hashes
  }

  /** Every zero is interesting, so a zero's hash is not remembered. */
  function Record(m: Memory, r: CandidateResult): Memory {
    Memory(if r.score < m.best then r.score else m.best,
           if r.score != 0 && r.hash.Some? then m.hashes + {r.hash.value} else m.hashes)
  }

  /** What a worker puts on the queue for a freshly evaluated candidate. */
  function Stripped(o: Options, m: Memory, r: CandidateResult): CandidateResult {
    if o.needAllSources || ShouldOutput(o, m, r) then r else r.(hash := None, source := None)
  }

  /** What is remembered after looking at a result. */
  function Seen(o: Options, m: Memory, r: CandidateResult): Memory {
    if ShouldOutput(o, m, r) then Record(m, r) else m
  }

  // ----- a parent that is sent one result after another -----

  function After(o: Options, m: Memory, rs: seq<CandidateResult>): Memory {
    if |rs| == 0 then m else Seen(o, After(o, m, rs[..|rs| - 1]), rs[|rs| - 1])
  }

  predicate ReportedAt(o: Options, m: Memory, rs: seq<CandidateResult>, i: nat)
    requires i < |rs|
  {
    ShouldOutput(o, After(o, m, rs[..i]), rs[i])
  }

  lemma {:induction false} MemoryGrows(o: Options, m: Memory, rs: seq<CandidateResult>, i: nat)
    requires i <= |rs|
    ensures After(o, m, rs[..i]).hashes <= After(o, m, rs).hashes
    ensures After(o, m, rs).best <= After(o, m, rs[..i]).best
    decreases |rs|
  {
    if i == |rs| {
      assert rs[..i] == rs;
    } else {
      var init := rs[..|rs| - 1];
      assert init[..i] == rs[..i];
      MemoryGrows(o, m, init, i);
    }
  }

  /** After a report the memory is at most its score, and holds its hash unless the score is 0. */
  lemma ReportIsRemembered(o: Options, m: Memory, rs: seq<CandidateResult>, i: nat, j: nat)
    requires i < j <= |rs| && ReportedAt(o, m, rs, i)
    ensures After(o, m, rs[..j]).best <= rs[i].score
    ensures rs[i].score != 0 ==> rs[i].hash.Some? && rs[i].hash.value in After(o, m, rs[..j]).hashes
  {
    assert rs[..i + 1][..i] == rs[..i] && rs[..j][..i + 1] == rs[..i + 1];
    MemoryGrows(o, m, rs[..j], i + 1);
  }

  /** Only zeros are reported twice. */
  lemma ReportedOnce(o: Options, m: Memory, rs: seq<CandidateResult>, i: nat, j: nat)
    requires i < j < |rs| && ReportedAt(o, m, rs, i) && ReportedAt(o, m, rs, j) && rs[i].hash == rs[j].hash
    ensures rs[i].score == 0
  {
    ReportIsRemembered(o, m, rs, i, j);
  }

  /** The best score is the lowest of the first one and all that were reported. */
  lemma {:induction false} BestOfReported(o: Options, m: Memory, rs: seq<CandidateResult>)
    ensures After(o, m, rs).best <= m.best
    ensures forall i | 0 <= i < |rs| && ReportedAt(o, m, rs, i) :: After(o, m, rs).best <= rs[i].score
    ensures (After(o, m, rs).best == m.best
             || exists i :: 0 <= i < |rs| && ReportedAt(o, m, rs, i) && rs[i].score == After(o, m, rs).best)
    decreases |rs|
  {
    assert rs[..|rs|] == rs;
    forall i | 0 <= i < |rs| && ReportedAt(o, m, rs, i) ensures After(o, m, rs).best <= rs[i].score {
      ReportIsRemembered(o, m, rs, i, |rs|);
    }
    if |rs| > 0 {
      var last := |rs| - 1;
      BestOfReported(o, m, rs[..last]);
      if After(o, m, rs).best != m.best {
        if ReportedAt(o, m, rs, last) && rs[last].score == After(o, m, rs).best {
        } else {
          var i :| 0 <= i < last && ReportedAt(o, m, rs[..last], i) && rs[i].score == After(o, m, rs).best;
          assert rs[..last][..i] == rs[..i] && ReportedAt(o, m, rs, i);
        }
      }
    }
  }

  /** With `best_only` no reported score is worse than one reported before. */
  lemma BestOnlyImproves(o: Options, m: Memory, rs: seq<CandidateResult>, i: nat, j: nat)
    requires o.bestOnly && i < j < |rs| && ReportedAt(o, m, rs, i) && ReportedAt(o, m, rs, j)
    ensures rs[j].score <= rs[i].score
  {
    ReportIsRemembered(o, m, rs, i, j);
  }

  // ----- which results are reported -----

  /** A complete result that the options admit: below the base score, or level with it
      unless only better ones are wanted, and below the threshold if there is one. */
  predicate Eligible(o: Options, r: CandidateResult) {
    && r.hash.Some? && r.source.Some?
    && (r.score < o.baseScore || (!o.betterOnly && r.score == o.baseScore))
    && (o.scoreThreshold.Some? ==> r.score < o.scoreThreshold.value)
  }

  /** In a memory: an eligible result whose hash is new, and under `best_only` none that is
      worse than the best. */
  lemma OutputMeans(o: Options, m: Memory, r: CandidateResult)
    ensures ShouldOutput(o, m, r)
       <==> Eligible(o, r) && r.hash.value !in m.hashes && (o.bestOnly ==> r.score <= m.best)
  {
  }

  /** What a worker sends keeps its score. Hash and source are sent when all sources are
      wanted or the result is one to report, and neither is otherwise. */
  lemma StrippedMeans(o: Options, m: Memory, r: CandidateResult)
    ensures Stripped(o, m, r).score == r.score
    ensures if o.needAllSources
              || (Eligible(o, r) && r.hash.value !in m.hashes && (o.bestOnly ==> r.score <= m.best))
            then Stripped(o, m, r).hash == r.hash && Stripped(o, m, r).source == r.source
            else Stripped(o, m, r).hash == None && Stripped(o, m, r).source == None
  {
    OutputMeans(o, m, r);
  }

  function Initially(o: Options, baseHash: string): Memory {
    Memory(o.baseScore, {baseHash})
  }

  /** Each hash has one score. */
  predicate Honest(scoreOf: string -> int, rs: seq<CandidateResult>) {
    forall i | 0 <= i < |rs| :: rs[i].hash.Some? ==> rs[i].score == scoreOf(rs[i].hash.value)
  }

  /** Result `i` is one of the eligible ones, and so was an earlier one with its hash. */
  predicate SeenBefore(o: Options, rs: seq<CandidateResult>, i: nat)
    requires i < |rs|
  {
    exists j :: 0 <= j < i && Eligible(o, rs[j]) && rs[j].hash == rs[i].hash
  }

  lemma {:induction false} RememberedWereReported(o: Options, m: Memory, rs: seq<CandidateResult>, h: string)
    ensures h in After(o, m, rs).hashes
       <==> h in m.hashes
            || exists i :: 0 <= i < |rs| && ReportedAt(o, m, rs, i) && rs[i].score != 0 && rs[i].hash == Some(h)
    decreases |rs|
  {
    if |rs| > 0 {
      var last := |rs| - 1;
      RememberedWereReported(o, m, rs[..last], h);
      forall i | 0 <= i < last ensures ReportedAt(o, m, rs[..last], i) <==> ReportedAt(o, m, rs, i) {
        assert rs[..last][..i] == rs[..i];
      }
      if h in After(o, m, rs).hashes && h !in After(o, m, rs[..last]).hashes {
        assert ReportedAt(o, m, rs, last);
      }
    }
  }

  /** Result `i` is worse than the base or an eligible result before it. */
  predicate Beaten(o: Options, rs: seq<CandidateResult>, i: nat)
    requires i < |rs|
  {
    rs[i].score > o.baseScore || exists j :: 0 <= j < i && Eligible(o, rs[j]) && rs[j].score < rs[i].score
  }

  /** The best score is the lowest of the base score and all eligible results, reported or not. */
  lemma {:induction false} BestOfEligible(o: Options, baseHash: string, scoreOf: string -> int,
                                          rs: seq<CandidateResult>)
    requires Honest(scoreOf, rs) && scoreOf(baseHash) == o.baseScore
    ensures var best := After(o, Initially(o, baseHash), rs).best;
            && best <= o.baseScore
            && (forall i | 0 <= i < |rs| && Eligible(o, rs[i]) :: best <= rs[i].score)
            && (best == o.baseScore || exists i :: 0 <= i < |rs| && Eligible(o, rs[i]) && rs[i].score == best)
    decreases |rs|
  {
    if |rs| > 0 {
      var m, last := Initially(o, baseHash), |rs| - 1;
      BestOfEligible(o, baseHash, scoreOf, rs[..last]);
      var before := After(o, m, rs[..last]);
      assert After(o, m, rs) == Seen(o, before, rs[last]);
      OutputMeans(o, before, rs[last]);
      if Eligible(o, rs[last]) && rs[last].hash.value in before.hashes {
        RememberedIsNoBetter(o, baseHash, scoreOf, rs[..last], rs[last]);
      }
      if ReportedAt(o, m, rs, last) {
        assert rs[last].score < before.best ==> After(o, m, rs).best == rs[last].score;
      }
      var best := After(o, m, rs).best;
      if best != o.baseScore && best == before.best {
        var i :| 0 <= i < last && Eligible(o, rs[..last][i]) && rs[..last][i].score == best;
        assert Eligible(o, rs[i]) && rs[i].score == best;
      }
    }
  }

  /** A hash that is remembered comes with a score that is no lower than the best. */
  lemma RememberedIsNoBetter(o: Options, baseHash: string, scoreOf: string -> int, rs: seq<CandidateResult>,
                             r: CandidateResult)
    requires Honest(scoreOf, rs) && Honest(scoreOf, [r]) && scoreOf(baseHash) == o.baseScore
    requires r.hash.Some? && r.hash.value in After(o, Initially(o, baseHash), rs).hashes
    ensures After(o, Initially(o, baseHash), rs).best <= r.score
  {
    var m := Initially(o, baseHash);
    assert [r][0] == r;
    BestOfReported(o, m, rs);
    RememberedWereReported(o, m, rs, r.hash.value);
    if r.hash.value != baseHash {
      var i :| 0 <= i < |rs| && ReportedAt(o, m, rs, i) && rs[i].score != 0 && rs[i].hash == r.hash;
      assert After(o, m, rs).best <= rs[i].score;
    }
  }

  /** Which of a sequence of results are reported: those eligible ones that do not have the
      base's hash or, except for zeros, that of an earlier eligible one; under `best_only`
      not those that were beaten before. */
  lemma {:induction false} ReportedExactly(o: Options, baseHash: string, scoreOf: string -> int,
                                           rs: seq<CandidateResult>, i: nat)
    requires Honest(scoreOf, rs) && scoreOf(baseHash) == o.baseScore && i < |rs|
    ensures ReportedAt(o, Initially(o, baseHash), rs, i)
       <==> && Eligible(o, rs[i]) && rs[i].hash != Some(baseHash)
            && (rs[i].score == 0 || !SeenBefore(o, rs, i))
            && (o.bestOnly ==> !Beaten(o, rs, i))
    decreases i
  {
    var m := Initially(o, baseHash);
    var before := After(o, m, rs[..i]);
    OutputMeans(o, before, rs[i]);
    BestOfEligible(o, baseHash, scoreOf, rs[..i]);
    NotBeaten(o, baseHash, scoreOf, rs, i);
    if Eligible(o, rs[i]) {
      RememberedWereReported(o, m, rs[..i], rs[i].hash.value);
      if before.hashes * {rs[i].hash.value} != {} && rs[i].hash.value != baseHash {
        var j :| 0 <= j < i && ReportedAt(o, m, rs[..i], j) && rs[..i][j].score != 0 && rs[..i][j].hash == rs[i].hash;
        OutputMeans(o, After(o, m, rs[..i][..j]), rs[j]);
        assert SeenBefore(o, rs, i);
      }
      if rs[i].hash.value !in before.hashes && SeenBefore(o, rs, i) && rs[i].score != 0 {
        SeenButNew(o, baseHash, scoreOf, rs, i);
      }
    }
  }

  lemma NotBeaten(o: Options, baseHash: string, scoreOf: string -> int, rs: seq<CandidateResult>, i: nat)
    requires Honest(scoreOf, rs) && scoreOf(baseHash) == o.baseScore && i < |rs|
    ensures rs[i].score <= After(o, Initially(o, baseHash), rs[..i]).best <==> !Beaten(o, rs, i)
  {
    var best := After(o, Initially(o, baseHash), rs[..i]).best;
    BestOfEligible(o, baseHash, scoreOf, rs[..i]);
    if rs[i].score > best && best != o.baseScore {
      var j :| 0 <= j < i && Eligible(o, rs[..i][j]) && rs[..i][j].score == best;
      assert Eligible(o, rs[j]) && rs[j].score < rs[i].score;
    }
    if rs[i].score <= best {
      forall j | 0 <= j < i && Eligible(o, rs[j]) ensures rs[j].score >= rs[i].score {
        assert Eligible(o, rs[..i][j]);
      }
    }
  }

  /** A result whose hash an earlier eligible one had, though it is not remembered, was
      beaten already then. */
  lemma SeenButNew(o: Options, baseHash: string, scoreOf: string -> int, rs: seq<CandidateResult>, i: nat)
    requires Honest(scoreOf, rs) && scoreOf(baseHash) == o.baseScore && i < |rs| && SeenBefore(o, rs, i)
    requires rs[i].hash.Some? && rs[i].score != 0
    requires rs[i].hash.value !in After(o, Initially(o, baseHash), rs[..i]).hashes
    ensures o.bestOnly && Beaten(o, rs, i)
  {
    var m := Initially(o, baseHash);
    var j :| 0 <= j < i && Eligible(o, rs[j]) && rs[j].hash == rs[i].hash;
    var then_ := After(o, m, rs[..j]);
    assert rs[..i][..j] == rs[..j] && rs[..i][..j + 1] == rs[..j + 1] && rs[..j + 1][..j] == rs[..j];
    MemoryGrows(o, m, rs[..i], j);
    MemoryGrows(o, m, rs[..i], j + 1);
    OutputMeans(o, then_, rs[j]);
    assert After(o, m, rs[..j + 1]) == Seen(o, then_, rs[j]);
    NotBeaten(o, baseHash, scoreOf, rs, i);
  }

  // ----- the object -----

  class PermuterState {
    const options: Options
    var bestScore: int
    var hashes: set<string>

    constructor (options: Options, baseHash: string)
      ensures this.options == options
      ensures View() == Memory(options.baseScore, {baseHash})
    {
      this.options := options;
      bestScore := options.baseScore;
      hashes := {baseHash};
    }

    function View(): Memory
      reads this
    {
      Memory(bestScore, hashes)
    }

    method RecordResult(r: CandidateResult)
      modifies this
      ensures View() == Record(old(View()), r)
      ensures bestScore <= r.score && bestScore in {old(bestScore), r.score} && old(hashes) <= hashes
    {
      if r.score < bestScore {
        bestScore := r.score;
      }
      if r.score != 0 && r.hash.Some? {
        hashes := hashes + {r.hash.value};
      }
    }

    /** A worker's turn on one evaluated candidate: strip, then remember. */
    method WorkerTurn(raw: CandidateResult) returns (sent: CandidateResult)
      modifies this
      ensures sent == Stripped(options, old(View()), raw)
      ensures View() == Seen(options, old(View()), sent)
      ensures View() == Seen(options, old(View()), raw)
      ensures sent.score == raw.score
      ensures if options.needAllSources || (Eligible(options, raw) && raw.hash.value !in old(hashes)
                                            && (options.bestOnly ==> raw.score <= old(bestScore)))
              then sent.hash == raw.hash && sent.source == raw.source else sent.hash == None && sent.source == None
    {
      StrippedMeans(options, View(), raw);
      sent := raw;
      if !(options.needAllSources || ShouldOutput(options, View(), raw)) {
        sent := raw.(source := None, hash := None);
      }
      if ShouldOutput(options, View(), sent) {
        RecordResult(sent);
      }
    }

    /** The parent's turn on one delivered result: report it, or not. */
    method PostScore(r: CandidateResult) returns (reported: bool)
      modifies this
      ensures reported == ShouldOutput(options, old(View()), r)
      ensures reported <==> Eligible(options, r) && r.hash.value !in old(hashes)
                            && (options.bestOnly ==> r.score <= old(bestScore))
      ensures View() == Seen(options, old(View()), r)
      ensures bestScore <= old(bestScore) && old(hashes) <= hashes && (reported ==> bestScore <= r.score)
      ensures r.score != 0 ==> !ShouldOutput(options, View(), r)
    {
      OutputMeans(options, View(), r);
      reported := ShouldOutput(options, View(), r);
      if reported {
        RecordResult(r);
      }
    }
  }
}
