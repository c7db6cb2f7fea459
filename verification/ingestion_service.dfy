/**
 * The ingestion side of `CurrencyStatsService`: `createStats` reads the lines one by
 * one, keeps a local batch and hands each full batch to the stats repository.
 */
module IngestionService {
  import opened Wrappers
  import opened Records
  import opened Batching
  import opened Ingestion

  class CurrencyStatsService {
    /** `currency.create-stats.batch-size` (30 by default). */
    const batchSize: nat
    /** The symbols the currency repository holds (`findById` succeeds exactly for these). */
    const registry: set<string>
    /** Every `saveAll` call made on the stats repository, in order. */
    var saved: seq<seq<StatsEntity>>
    /** Every `findById` call made on the currency repository, in order. */
    ghost var lookups: seq<string>

    constructor (batchSize: nat, registry: set<string>)
      ensures this.batchSize == batchSize && this.registry == registry
      ensures saved == [] && lookups == []
    {
      this.batchSize := batchSize;
      this.registry := registry;
      saved := [];
      lookups := [];
    }

    /** `saveAll`: one call to the stats repository with the given batch. */
    method SaveAll(batch: seq<StatsEntity>)
      modifies this`saved
      ensures saved == old(saved) + [batch]
    {
      saved := saved + [batch];
    }

    /**
     * `createStats`: the reported outcome, the flushes and the lookups are those the
     * ingestion functions prescribe for these lines.
     */
    method CreateStats(lines: seq<Line>, p: Parsers) returns (outcome: Outcome<IngestError>)
      requires |lines| >= 2
      modifies this`saved, this`lookups
      ensures outcome == IngestOutcome(lines, registry, p)
      ensures saved == old(saved) + IngestFlushes(lines, registry, batchSize, p)
      ensures lookups == old(lookups) + IngestLookups(lines)
    {
      if lines[0].Unreadable? {
        EarlyStop(lines, registry, batchSize, p);
        return Fail(StreamReadFailure);
      }
      var line := lines[1];
      if line.Unreadable? {
        EarlyStop(lines, registry, batchSize, p);
        return Fail(StreamReadFailure);
      }
      if |line.cells| != Columns {
        EarlyStop(lines, registry, batchSize, p);
        return Fail(ColumnCount);
      }
      lookups := lookups + [line.cells[1]];
      if line.cells[1] !in registry {
        EarlyStop(lines, registry, batchSize, p);
        return Fail(CurrencyNotRegistered);
      }
      var currency := line.cells[1];
      var first := ParseAndCreateEntity(line.cells, currency, p);
      if first.None? {
        EarlyStop(lines, registry, batchSize, p);
        return Fail(MalformedNumber);
      }
      assert LoopReached(lines, registry, p) && Expected(lines, registry, p) == currency;
      outcome := ReadRows(lines, p, currency, first.value);
    }

    /**
     * The loop of `createStats` and the final flush: line 1's entity is already in the
     * batch, every later line is checked and added, and the batch is flushed whenever
     * it reaches `batchSize`, and once more at the end if it is not empty.
     */
    method ReadRows(lines: seq<Line>, p: Parsers, currency: string, first: StatsEntity)
      returns (outcome: Outcome<IngestError>)
      requires |lines| >= 2 && LoopReached(lines, registry, p)
      requires currency == Expected(lines, registry, p) && first == CheckFirstLine(lines[1], registry, p).value
      modifies this`saved
      ensures outcome == IngestOutcome(lines, registry, p)
      ensures saved == old(saved) + IngestFlushes(lines, registry, batchSize, p)
    {
      var batch := [first];
      ghost var added := [first];
      var i := 2;
      while i < |lines|
        invariant 2 <= i <= |lines|
        invariant forall j :: 2 <= j < i ==> CheckLine(lines[j], currency, p).Success?
        invariant added == [first] + Accepted(lines, currency, p, 2, i)
        invariant saved == old(saved) + LoopBatches(added, batchSize)
        invariant batch == Pending(added, batchSize)
      {
        var check := CheckLine(lines[i], currency, p);
        if check.Failure? {
          LoopStop(lines, registry, batchSize, p, i);
          return Fail(check.error);
        }
        AddRow(added, check.value, batchSize);
        AcceptedStep(lines, currency, p, i);
        batch := batch + [check.value];
        added := added + [check.value];
        if |batch| == batchSize {
          SaveAll(batch);
          batch := [];
        }
        i := i + 1;
      }
      LoopStop(lines, registry, batchSize, p, |lines|);
      if batch != [] {
        SaveAll(batch);
      }
      return Pass;
    }
  }
}
