/**
 * What `createStats` does with a CSV file, as functions of the file's lines.
 *
 * Line 0 is the header and is skipped. Line 1 fixes the expected currency: it must
 * have three cells, and its symbol must be registered. Every later line must have
 * three cells and a symbol equal to the expected one up to case. Each accepted line
 * becomes a `StatsEntity` of the expected currency. The run stops at the first line
 * that is rejected, and the error of that line is the error of the run.
 */
module Ingestion {
  import opened Wrappers
  import opened Records
  import opened Text
  import opened Batching

  /** A line as the CSV reader hands it over: its cells, or a read failure. */
  datatype Line = Fields(cells: seq<string>) | Unreadable

  /**
   * The parsers for the first and third cell: epoch milliseconds to local date-time,
   * and decimal text to price. `None` stands for the `NumberFormatException` they throw.
   */
  datatype Parsers = Parsers(time: string -> Option<int>, price: string -> Option<real>)

  /** The ways ingestion can fail. */
  datatype IngestError =
    | StreamReadFailure
    | ColumnCount
    | CurrencyNotRegistered
    | CurrencyMismatch(expected: string, found: string)
    | MalformedNumber

  /** The exception message the service attaches to each of its own errors. */
  function Message(e: IngestError): string
    requires !e.MalformedNumber?
  {
    match e
    case StreamReadFailure => "Exception occurs while reading CSV file"
    case ColumnCount => "CSV file must contain exactly 3 columns per line"
    case CurrencyNotRegistered => "Currency not found, need to enable the currency first"
    case CurrencyMismatch(expected, found) =>
      "Multiple currencies found, expected only '" + expected + "' but found '" + found + "'"
  }

  const Columns: nat := 3

  /** `parseAndCreateEntity`: the time from cell 0, then the price from cell 2. */
  function ParseAndCreateEntity(cells: seq<string>, symbol: string, p: Parsers): Option<StatsEntity>
    requires |cells| == Columns
  {
    match p.time(cells[0])
    case None => None
    case Some(t) =>
      match p.price(cells[2])
      case None => None
      case Some(v) => Some(StatsEntity(symbol, t, v))
  }

  /** Line 1: the shape check, then the registry lookup, then parsing. */
  function CheckFirstLine(line: Line, registry: set<string>, p: Parsers): Result<StatsEntity, IngestError>
  {
    match line
    case Unreadable => Failure(StreamReadFailure)
    case Fields(cells) =>
      if |cells| != Columns then Failure(ColumnCount)
      else if cells[1] !in registry then Failure(CurrencyNotRegistered)
      else match ParseAndCreateEntity(cells, cells[1], p)
        case None => Failure(MalformedNumber)
        case Some(e) => Success(e)
  }

  /** Every later line: the shape check, then the symbol check, then parsing. */
  function CheckLine(line: Line, expected: string, p: Parsers): Result<StatsEntity, IngestError>
  {
    match line
    case Unreadable => Failure(StreamReadFailure)
    case Fields(cells) =>
      if |cells| != Columns then Failure(ColumnCount)
      else if !EqualsIgnoreCase(expected, cells[1]) then Failure(CurrencyMismatch(expected, cells[1]))
      else match ParseAndCreateEntity(cells, expected, p)
        case None => Failure(MalformedNumber)
        case Some(e) => Success(e)
  }

  /** The index of the first line at or after `from` that `CheckLine` rejects, or `|lines|`. */
  function FirstRejected(lines: seq<Line>, expected: string, p: Parsers, from: nat): (k: nat)
    requires from <= |lines|
    ensures from <= k <= |lines|
    ensures forall i :: from <= i < k ==> CheckLine(lines[i], expected, p).Success?
    ensures k < |lines| ==> CheckLine(lines[k], expected, p).Failure?
    decreases |lines| - from
  {
    if from == |lines| then from
    else if CheckLine(lines[from], expected, p).Failure? then from
    else FirstRejected(lines, expected, p, from + 1)
  }

  /** The entities built from lines `lo .. hi-1`, all of which were accepted. */
  function Accepted(lines: seq<Line>, expected: string, p: Parsers, lo: nat, hi: nat): seq<StatsEntity>
    requires lo <= hi <= |lines|
    requires forall i :: lo <= i < hi ==> CheckLine(lines[i], expected, p).Success?
  {
    seq(hi - lo, j requires 0 <= j < hi - lo => CheckLine(lines[lo + j], expected, p).value)
  }

  /** Whether line 1 passed its checks, so that the loop over the later lines ran. */
  predicate LoopReached(lines: seq<Line>, registry: set<string>, p: Parsers)
    requires |lines| >= 2
  {
    lines[0].Fields? && CheckFirstLine(lines[1], registry, p).Success?
  }

  /** The expected currency, once line 1 has passed. */
  function Expected(lines: seq<Line>, registry: set<string>, p: Parsers): string
    requires |lines| >= 2 && LoopReached(lines, registry, p)
  {
    lines[1].cells[1]
  }

  /** The index of the line at which the run stops; `|lines|` when it reads the whole file. */
  function StopLine(lines: seq<Line>, registry: set<string>, p: Parsers): nat
    requires |lines| >= 2
  {
    if lines[0].Unreadable? then 0
    else if CheckFirstLine(lines[1], registry, p).Failure? then 1
    else FirstRejected(lines, Expected(lines, registry, p), p, 2)
  }

  /** The entities added to the batch before the run stopped, in order. */
  function Added(lines: seq<Line>, registry: set<string>, p: Parsers): seq<StatsEntity>
    requires |lines| >= 2
  {
    if !LoopReached(lines, registry, p) then []
    else
      var exp := Expected(lines, registry, p);
      [CheckFirstLine(lines[1], registry, p).value]
        + Accepted(lines, exp, p, 2, FirstRejected(lines, exp, p, 2))
  }

  /** What `createStats` reports. */
  function IngestOutcome(lines: seq<Line>, registry: set<string>, p: Parsers): Outcome<IngestError>
    requires |lines| >= 2
  {
    var k := StopLine(lines, registry, p);
    if k == |lines| then Pass
    else if k == 0 then Fail(StreamReadFailure)
    else if k == 1 then Fail(CheckFirstLine(lines[1], registry, p).error)
    else Fail(CheckLine(lines[k], Expected(lines, registry, p), p).error)
  }

  /**
   * The `saveAll` calls `createStats` makes, in order: a run that reaches the end of
   * the file flushes the remainder too; a run that stops early drops it.
   */
  function IngestFlushes(lines: seq<Line>, registry: set<string>, n: nat, p: Parsers): seq<seq<StatsEntity>>
    requires |lines| >= 2
  {
    var es := Added(lines, registry, p);
    if IngestOutcome(lines, registry, p).Pass? then Batches(es, n) else LoopBatches(es, n)
  }

  /** The registry lookups `createStats` makes: one, for line 1's symbol, once its shape is checked. */
  function IngestLookups(lines: seq<Line>): seq<string>
    requires |lines| >= 2
  {
    if lines[0].Fields? && lines[1].Fields? && |lines[1].cells| == Columns then [lines[1].cells[1]] else []
  }

  /** A run that stops before the loop flushes nothing. */
  lemma EarlyStop(lines: seq<Line>, registry: set<string>, n: nat, p: Parsers)
    requires |lines| >= 2 && !LoopReached(lines, registry, p)
    ensures IngestFlushes(lines, registry, n, p) == []
    ensures IngestOutcome(lines, registry, p) ==
      if lines[0].Unreadable? then Fail(StreamReadFailure) else Fail(CheckFirstLine(lines[1], registry, p).error)
  {
  }

  /** One more accepted line extends the accepted prefix, and the accepted entities by its entity. */
  lemma AcceptedStep(lines: seq<Line>, expected: string, p: Parsers, hi: nat)
    requires 2 <= hi < |lines|
    requires forall i :: 2 <= i < hi ==> CheckLine(lines[i], expected, p).Success?
    requires CheckLine(lines[hi], expected, p).Success?
    ensures forall i :: 2 <= i < hi + 1 ==> CheckLine(lines[i], expected, p).Success?
    ensures Accepted(lines, expected, p, 2, hi + 1)
      == Accepted(lines, expected, p, 2, hi) + [CheckLine(lines[hi], expected, p).value]
  {
  }

  /** A run that passes line 1 and stops in the loop at line `k`. */
  lemma LoopStop(lines: seq<Line>, registry: set<string>, n: nat, p: Parsers, k: nat)
    requires |lines| >= 2 && LoopReached(lines, registry, p)
    requires 2 <= k <= |lines|
    requires forall i :: 2 <= i < k ==> CheckLine(lines[i], Expected(lines, registry, p), p).Success?
    requires k < |lines| ==> CheckLine(lines[k], Expected(lines, registry, p), p).Failure?
    ensures var exp := Expected(lines, registry, p);
      var es := [CheckFirstLine(lines[1], registry, p).value] + Accepted(lines, exp, p, 2, k);
      && IngestOutcome(lines, registry, p) == (if k == |lines| then Pass else Fail(CheckLine(lines[k], exp, p).error))
      && IngestFlushes(lines, registry, n, p) == (if k == |lines| then Batches(es, n) else LoopBatches(es, n))
  {
    assert FirstRejected(lines, Expected(lines, registry, p), p, 2) == k;
  }

  // ---------------------------------------------------------------------------
  // Properties of a run, stated in terms of the lines alone.

  /** Line `i` (at least 1) passes every check the run makes on it. */
  ghost predicate LineValid(lines: seq<Line>, registry: set<string>, p: Parsers, i: nat)
    requires 1 <= i < |lines|
  {
    && lines[i].Fields?
    && |lines[i].cells| == Columns
    && p.time(lines[i].cells[0]).Some?
    && p.price(lines[i].cells[2]).Some?
    && (i == 1 ==> lines[i].cells[1] in registry)
    && (i >= 2 ==> lines[1].Fields? && |lines[1].cells| == Columns
                   && EqualsIgnoreCase(lines[1].cells[1], lines[i].cells[1]))
  }

  /** A file the service accepts: a readable header and every data line valid. */
  ghost predicate WellFormedFile(lines: seq<Line>, registry: set<string>, p: Parsers)
    requires |lines| >= 2
  {
    lines[0].Fields? && forall i :: 1 <= i < |lines| ==> LineValid(lines, registry, p, i)
  }

  /** The entity the service builds from valid data line `i`. */
  function EntityOf(lines: seq<Line>, i: nat, p: Parsers): StatsEntity
    requires 1 <= i < |lines|
    requires lines[1].Fields? && |lines[1].cells| == Columns
    requires lines[i].Fields? && |lines[i].cells| == Columns
    requires p.time(lines[i].cells[0]).Some? && p.price(lines[i].cells[2]).Some?
  {
    StatsEntity(lines[1].cells[1], p.time(lines[i].cells[0]).value, p.price(lines[i].cells[2]).value)
  }

  /** `CheckLine` accepts exactly the valid later lines, and builds their entities. */
  lemma CheckLineAccepts(lines: seq<Line>, registry: set<string>, p: Parsers, i: nat)
    requires 2 <= i < |lines| && LoopReached(lines, registry, p)
    ensures CheckLine(lines[i], Expected(lines, registry, p), p).Success? <==> LineValid(lines, registry, p, i)
    ensures LineValid(lines, registry, p, i) ==>
      CheckLine(lines[i], Expected(lines, registry, p), p).value == EntityOf(lines, i, p)
  {
  }

  /** The run stops at the first invalid data line, or at the header when it cannot be read. */
  lemma StopLineIsFirstInvalid(lines: seq<Line>, registry: set<string>, p: Parsers)
    requires |lines| >= 2
    ensures var k := StopLine(lines, registry, p);
      && k <= |lines|
      && (k == 0 <==> lines[0].Unreadable?)
      && (forall i :: 1 <= i < k ==> LineValid(lines, registry, p, i))
      && (1 <= k < |lines| ==> !LineValid(lines, registry, p, k))
  {
    var k := StopLine(lines, registry, p);
    if k >= 2 {
      forall i | 2 <= i < k ensures LineValid(lines, registry, p, i) {
        CheckLineAccepts(lines, registry, p, i);
      }
      if k < |lines| {
        CheckLineAccepts(lines, registry, p, k);
      }
    }
  }

  /** The entities added before the stop are those of lines 1 .. stop-1, in order. */
  lemma AddedAreValidLines(lines: seq<Line>, registry: set<string>, p: Parsers)
    requires |lines| >= 2
    ensures var k := StopLine(lines, registry, p);
      var es := Added(lines, registry, p);
      && |es| == (if k <= 1 then 0 else k - 1)
      && forall j :: 0 <= j < |es| ==> LineValid(lines, registry, p, j + 1) && es[j] == EntityOf(lines, j + 1, p)
  {
    StopLineIsFirstInvalid(lines, registry, p);
    var k := StopLine(lines, registry, p);
    if LoopReached(lines, registry, p) {
      var es := Added(lines, registry, p);
      forall j | 1 <= j < |es| ensures es[j] == EntityOf(lines, j + 1, p) {
        CheckLineAccepts(lines, registry, p, j + 1);
      }
    }
  }

  /** Ingestion succeeds exactly on well-formed files, after exactly one registry lookup. */
  lemma SucceedsIffWellFormed(lines: seq<Line>, registry: set<string>, p: Parsers)
    requires |lines| >= 2
    ensures IngestOutcome(lines, registry, p) == Pass <==> WellFormedFile(lines, registry, p)
    ensures IngestOutcome(lines, registry, p) == Pass ==> IngestLookups(lines) == [lines[1].cells[1]]
  {
    StopLineIsFirstInvalid(lines, registry, p);
  }

  /**
   * On success every data line is persisted exactly once and in file order, each
   * as an entity of line 1's currency with the line's own time and price.
   */
  lemma SuccessPersistsEveryLine(lines: seq<Line>, registry: set<string>, n: nat, p: Parsers)
    requires |lines| >= 2 && IngestOutcome(lines, registry, p) == Pass
    ensures WellFormedFile(lines, registry, p)
    ensures var saved := Flatten(IngestFlushes(lines, registry, n, p));
      && |saved| == |lines| - 1
      && forall j :: 0 <= j < |saved| ==> saved[j] == EntityOf(lines, j + 1, p)
  {
    SucceedsIffWellFormed(lines, registry, p);
    AddedAreValidLines(lines, registry, p);
    BatchesFlatten(Added(lines, registry, p), n);
  }

  /**
   * On success with batch size `n` at least 2 there are ceil(M / n) flushes for M data
   * lines, each non-empty, each but the last of exactly `n`; with `n` below 2 there is a
   * single flush of all M lines.
   */
  lemma SuccessFlushShape(lines: seq<Line>, registry: set<string>, n: nat, p: Parsers)
    requires |lines| >= 2 && IngestOutcome(lines, registry, p) == Pass
    ensures var fs := IngestFlushes(lines, registry, n, p);
      && (n >= 2 ==>
          && |fs| == (|lines| - 1 + n - 1) / n
          && (forall i :: 0 <= i < |fs| ==> 1 <= |fs[i]| <= n)
          && (forall i :: 0 <= i < |fs| - 1 ==> |fs[i]| == n))
      && (n < 2 ==> |fs| == 1 && |fs[0]| == |lines| - 1)
  {
    var es := Added(lines, registry, p);
    AddedAreValidLines(lines, registry, p);
    if n >= 2 {
      BatchesShape(es, n);
    } else {
      BatchesBelowTwo(es, n);
    }
  }

  /**
   * A failed run flushes only full in-loop batches of lines before the failing one:
   * nothing at all with `n` below 2, and never the failing line or anything after it.
   */
  lemma FailureFlushesOnlyFullBatches(lines: seq<Line>, registry: set<string>, n: nat, p: Parsers)
    requires |lines| >= 2 && IngestOutcome(lines, registry, p).Fail?
    ensures var fs := IngestFlushes(lines, registry, n, p);
      var saved := Flatten(fs);
      var k := StopLine(lines, registry, p);
      && k < |lines|
      && (forall i :: 0 <= i < |fs| ==> |fs[i]| == n)
      && (n < 2 ==> fs == [])
      && (saved == [] || |saved| < k)
      && forall j :: 0 <= j < |saved| ==> LineValid(lines, registry, p, j + 1) && saved[j] == EntityOf(lines, j + 1, p)
  {
    var es := Added(lines, registry, p);
    var k := StopLine(lines, registry, p);
    var fs := IngestFlushes(lines, registry, n, p);
    StopLineIsFirstInvalid(lines, registry, p);
    assert k < |lines|;
    assert fs == LoopBatches(es, n);
    AddedAreValidLines(lines, registry, p);
    LoopBatchesAreFull(es, n);
    LoopBatchesArePrefix(es, n);
    var saved := Flatten(fs);
    assert |saved| <= |es| == (if k <= 1 then 0 else k - 1);
    forall j | 0 <= j < |saved|
      ensures LineValid(lines, registry, p, j + 1) && saved[j] == EntityOf(lines, j + 1, p)
    {
      assert saved[j] == es[j];
    }
  }

  /**
   * A line with the wrong number of cells fails the run with the column-count error as
   * soon as it is examined: line 1 before its symbol is looked up, later lines before
   * their symbol is compared.
   */
  lemma WrongColumnCountFails(lines: seq<Line>, registry: set<string>, p: Parsers, k: nat)
    requires 1 <= k < |lines| && lines[0].Fields?
    requires forall i :: 1 <= i < k ==> LineValid(lines, registry, p, i)
    requires lines[k].Fields? && |lines[k].cells| != Columns
    ensures IngestOutcome(lines, registry, p) == Fail(ColumnCount)
    ensures Message(ColumnCount) == "CSV file must contain exactly 3 columns per line"
  {
    StopAt(lines, registry, p, k);
  }

  /** A later line whose symbol differs from line 1's up to case fails the run, naming both symbols. */
  lemma MismatchedSymbolFails(lines: seq<Line>, registry: set<string>, p: Parsers, k: nat)
    requires 2 <= k < |lines| && lines[0].Fields?
    requires forall i :: 1 <= i < k ==> LineValid(lines, registry, p, i)
    requires lines[1].Fields? && |lines[1].cells| == Columns
    requires lines[k].Fields? && |lines[k].cells| == Columns
    requires !EqualsIgnoreCase(lines[1].cells[1], lines[k].cells[1])
    ensures IngestOutcome(lines, registry, p) == Fail(CurrencyMismatch(lines[1].cells[1], lines[k].cells[1]))
  {
    StopAt(lines, registry, p, k);
  }

  /** The run stops at the first invalid line after a valid prefix. */
  lemma StopAt(lines: seq<Line>, registry: set<string>, p: Parsers, k: nat)
    requires 1 <= k < |lines| && lines[0].Fields?
    requires forall i :: 1 <= i < k ==> LineValid(lines, registry, p, i)
    requires !LineValid(lines, registry, p, k)
    ensures StopLine(lines, registry, p) == k
  {
    StopLineIsFirstInvalid(lines, registry, p);
  }

  /**
   * A mismatch error only ever comes from a line after line 1, and names line 1's symbol
   * and a symbol that really differs from it up to case.
   */
  lemma MismatchComesFromLaterLine(lines: seq<Line>, registry: set<string>, p: Parsers)
    requires |lines| >= 2 && IngestOutcome(lines, registry, p).Fail?
    requires IngestOutcome(lines, registry, p).error.CurrencyMismatch?
    ensures var e := IngestOutcome(lines, registry, p).error;
      && lines[1].Fields? && |lines[1].cells| == Columns && e.expected == lines[1].cells[1]
      && !EqualsIgnoreCase(e.expected, e.found)
      && exists k :: 2 <= k < |lines| && lines[k].Fields? && |lines[k].cells| == Columns && lines[k].cells[1] == e.found
  {
    var k := StopLine(lines, registry, p);
    assert 2 <= k < |lines|;
    var e := IngestOutcome(lines, registry, p).error;
    assert e == CheckLine(lines[k], Expected(lines, registry, p), p).error;
    assert lines[k].cells[1] == e.found;
  }

  /**
   * The registry rejects the run exactly when line 1 is well shaped and its symbol is not
   * registered; then that one lookup was made and nothing was flushed.
   */
  lemma NotRegisteredIff(lines: seq<Line>, registry: set<string>, n: nat, p: Parsers)
    requires |lines| >= 2
    ensures IngestOutcome(lines, registry, p) == Fail(CurrencyNotRegistered) <==>
      lines[0].Fields? && lines[1].Fields? && |lines[1].cells| == Columns && lines[1].cells[1] !in registry
    ensures IngestOutcome(lines, registry, p) == Fail(CurrencyNotRegistered) ==>
      IngestFlushes(lines, registry, n, p) == [] && IngestLookups(lines) == [lines[1].cells[1]]
  {
    var k := StopLine(lines, registry, p);
    if k >= 2 && k < |lines| {
      assert CheckLine(lines[k], Expected(lines, registry, p), p).error != CurrencyNotRegistered;
    }
  }
}
