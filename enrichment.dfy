/**
 * enrich-products.js: the batch run that asks a language model to describe every product of products.json.
 * It resumes from a saved progress file, appends one record per remaining product, saves its progress
 * after every tenth product, writes the enriched list, tallies the categories and removes the progress file.
 *
 * The model call and the parse of its answer are an oracle indexed by product position; the files the run
 * writes are returned as a log of writes, in order.
 */
module Enrichment {
  import opened Wrappers
  import Js
  import Seqs

  /** How the model call and `JSON.parse` of its answer end for one product: an exception with its message, or the parsed JSON. */
  datatype OracleOutcome = Threw(message: string) | Parsed(data: Js.Value)

  /** Reading a property of these throws a TypeError. */
  predicate Unreadable(v: Js.Value) {
    v.Null? || v.Undefined?
  }

  /** V8's message for reading property `key` of `null` or `undefined`. */
  function ReadError(v: Js.Value, key: string): string
    requires Unreadable(v)
  {
    "Cannot read properties " + "of " + (if v.Null? then "null" else "undefined") + " (reading '" + key + "')"
  }

  /** The message of what `productName.substring(0, 60)` throws for a name that is not a string. */
  function SubstringFailure(name: Js.Value): Option<string> {
    if name.Str? then None
    else if Unreadable(name) then Some(ReadError(name, "substring"))
    else Some("productName.substring " + "is not a function")
  }

  /**
   * The message of the exception `enrichProduct` catches, or `None` when it returns the parsed data. In order:
   * the progress line takes a substring of the name, the model is called and its answer parsed, and the
   * success line reads `enrichedData.category`.
   */
  function Failure(name: Js.Value, outcome: OracleOutcome): Option<string> {
    if SubstringFailure(name).Some? then SubstringFailure(name)
    else match outcome
      case Threw(message) => Some(message)
      case Parsed(data) => if Unreadable(data) then Some(ReadError(data, "category")) else None
  }

  /** The `technical_notes` of a record whose enrichment failed. */
  function FallbackNote(): string {
    "Otomatik " + "zenginleştirme başarısız"
  }

  /** The record the `catch` block returns. */
  function FallbackRecord(name: Js.Value, message: string): Js.Value {
    Js.Object(Js.Props(FallbackFields(name, message)))
  }

  /** The fields of the object literal in the `catch` block, in writing order. */
  function FallbackFields(name: Js.Value, message: string): seq<(string, Js.Value)> {
    [("name", name), ("category", Js.Str("Belirsiz")), ("properties", Js.Object(map[])),
     ("applications", Js.Array([])), ("benefits", Js.Array([])), ("project_types", Js.Array([])),
     ("technical_notes", Js.Str(FallbackNote())), ("error", Js.Str(message))]
  }

  /** `enrichProduct(productName, ...)`: the parsed answer, or the fallback record when any step throws. */
  function EnrichProduct(name: Js.Value, outcome: OracleOutcome): (r: Js.Value)
    ensures !Unreadable(r)
    ensures Failure(name, outcome).None? ==> outcome.Parsed? && r == outcome.data
  {
    match Failure(name, outcome)
    case Some(message) => FallbackRecord(name, message)
    case None => outcome.data
  }

  /** A failed enrichment gives the fixed fallback fields, the product's own name and the exception's message. */
  lemma FailureGivesFallback(name: Js.Value, outcome: OracleOutcome)
    requires Failure(name, outcome).Some?
    ensures var r := EnrichProduct(name, outcome);
      && Js.Get(r, "name") == name
      && Js.Get(r, "category") == Js.Str("Belirsiz")
      && Js.Get(r, "properties") == Js.Object(map[])
      && Js.Get(r, "applications") == Js.Array([])
      && Js.Get(r, "benefits") == Js.Array([])
      && Js.Get(r, "project_types") == Js.Array([])
      && Js.Get(r, "technical_notes") == Js.Str(FallbackNote())
      && Js.Get(r, "error") == Js.Str(Failure(name, outcome).value)
  {
    var fields := FallbackFields(name, Failure(name, outcome).value);
    Js.PropsAt(fields, 0);
    Js.PropsAt(fields, 1);
    Js.PropsAt(fields, 2);
    Js.PropsAt(fields, 3);
    Js.PropsAt(fields, 4);
    Js.PropsAt(fields, 5);
    Js.PropsAt(fields, 6);
    Js.PropsAt(fields, 7);
  }

  /** A name that is not a string fails before the model is asked: the outcome makes no difference. */
  lemma NonStringNameNeverReachesModel(name: Js.Value, o1: OracleOutcome, o2: OracleOutcome)
    requires !name.Str?
    ensures EnrichProduct(name, o1) == EnrichProduct(name, o2)
    ensures Js.Get(EnrichProduct(name, o1), "error") == Js.Str(SubstringFailure(name).value)
  {
  }

  /** A string name with an answer that parses to a readable value gives that value unchanged. */
  lemma ParsedAnswerKept(name: string, data: Js.Value)
    requires !Unreadable(data)
    ensures EnrichProduct(Js.Str(name), Parsed(data)) == data
  {
  }

  // ----- Progress, checkpoints and the run -----

  /** The parsed progress file. */
  datatype Saved = Saved(processedCount: int, products: Option<seq<Js.Value>>)

  /** The object `saveProgress` writes, without its `lastUpdate` time. */
  datatype Checkpoint = Checkpoint(totalProducts: nat, processedCount: nat, products: seq<Js.Value>)

  /** A change the run makes to its files. */
  datatype FileWrite =
    | SaveProgress(checkpoint: Checkpoint)
    | WriteEnriched(records: seq<Js.Value>)
    | RemoveProgress

  /** How the run ends: with its records and category tally, or with an uncaught exception. */
  datatype RunResult = Completed(records: seq<Js.Value>, categories: seq<Js.Value>, counts: seq<nat>) | Crashed

  /** `progress && progress.products`: a progress file whose `products` is present (an array, so truthy even when empty). */
  predicate Resumes(saved: Option<Saved>) {
    saved.Some? && saved.value.products.Some?
  }

  function StartIndex(saved: Option<Saved>): int {
    if Resumes(saved) then saved.value.processedCount else 0
  }

  function Prior(saved: Option<Saved>): seq<Js.Value> {
    if Resumes(saved) then saved.value.products.value else []
  }

  /** The records for the products at positions `lo` up to `hi`, one each, in product order. */
  function EnrichRange(names: seq<Js.Value>, oracle: nat -> OracleOutcome, lo: nat, hi: nat): (r: seq<Js.Value>)
    requires lo <= hi <= |names|
    ensures |r| == hi - lo
    decreases hi
  {
    if hi == lo then [] else EnrichRange(names, oracle, lo, hi - 1) + [EnrichProduct(names[hi - 1], oracle(hi - 1))]
  }

  /** Record `j` of a range is the record of product `lo + j`. */
  lemma {:induction false} EnrichRangeAt(names: seq<Js.Value>, oracle: nat -> OracleOutcome, lo: nat, hi: nat, j: nat)
    requires lo <= hi <= |names| && j < hi - lo
    ensures EnrichRange(names, oracle, lo, hi)[j] == EnrichProduct(names[lo + j], oracle(lo + j))
    decreases hi
  {
    if j < hi - 1 - lo {
      EnrichRangeAt(names, oracle, lo, hi - 1, j);
    }
  }

  /** The checkpoints written by the iterations from `start` while fewer than `upto` products are done. */
  function Checkpoints(names: seq<Js.Value>, oracle: nat -> OracleOutcome, prior: seq<Js.Value>, start: nat, upto: nat): seq<FileWrite>
    requires start <= upto <= |names|
    decreases upto
  {
    if upto == start then []
    else
      Checkpoints(names, oracle, prior, start, upto - 1) +
      (if upto % 10 == 0 then [SaveProgress(Checkpoint(|names|, upto, prior + EnrichRange(names, oracle, start, upto)))] else [])
  }

  /** The records after the loop (a start past the end skips it). */
  function FinalRecords(names: seq<Js.Value>, saved: Option<Saved>, oracle: nat -> OracleOutcome): seq<Js.Value>
    requires StartIndex(saved) >= 0
  {
    var start := StartIndex(saved);
    if start <= |names| then Prior(saved) + EnrichRange(names, oracle, start, |names|) else Prior(saved)
  }

  function RunCheckpoints(names: seq<Js.Value>, saved: Option<Saved>, oracle: nat -> OracleOutcome): seq<FileWrite>
    requires StartIndex(saved) >= 0
  {
    var start := StartIndex(saved);
    if start <= |names| then Checkpoints(names, oracle, Prior(saved), start, |names|) else []
  }

  /** `p.category` throws for some record. */
  predicate TallyCrashes(records: seq<Js.Value>) {
    exists k :: 0 <= k < |records| && Unreadable(records[k])
  }

  function Category(record: Js.Value): Js.Value {
    Js.Get(record, "category")
  }

  /** `[...new Set(enrichedProducts.map(p => p.category))]`. */
  function Categories(records: seq<Js.Value>): seq<Js.Value> {
    Seqs.Distinct(Seqs.Map(Category, records))
  }

  /** For each category, `enrichedProducts.filter(p => p.category === cat).length`. */
  function CategoryCounts(records: seq<Js.Value>): seq<nat> {
    Seqs.Counts(Category, records, Categories(records))
  }

  /** The file exists at the end when it existed at the start or a checkpoint created it. */
  predicate ProgressFileAtEnd(names: seq<Js.Value>, saved: Option<Saved>, oracle: nat -> OracleOutcome)
    requires StartIndex(saved) >= 0
  {
    saved.Some? || RunCheckpoints(names, saved, oracle) != []
  }

  /**
   * How `enrichAllProducts()` ends. A negative start reads `products[start].name` of `undefined` and throws
   * before anything is written; a record whose category cannot be read makes the tally throw.
   */
  function RunOutcome(names: seq<Js.Value>, saved: Option<Saved>, oracle: nat -> OracleOutcome): RunResult {
    if StartIndex(saved) < 0 then Crashed
    else
      var records := FinalRecords(names, saved, oracle);
      if TallyCrashes(records) then Crashed
      else Completed(records, Categories(records), CategoryCounts(records))
  }

  /** The writes of `enrichAllProducts()`, oldest first. */
  function RunWrites(names: seq<Js.Value>, saved: Option<Saved>, oracle: nat -> OracleOutcome): seq<FileWrite> {
    if StartIndex(saved) < 0 then []
    else
      var records := FinalRecords(names, saved, oracle);
      RunCheckpoints(names, saved, oracle) + [WriteEnriched(records)] +
      (if !TallyCrashes(records) && ProgressFileAtEnd(names, saved, oracle) then [RemoveProgress] else [])
  }

  /** `enrichAllProducts()`, with the product names of products.json, the progress file as loaded and the model as an oracle. */
  method EnrichAll(names: seq<Js.Value>, saved: Option<Saved>, oracle: nat -> OracleOutcome)
    returns (result: RunResult, writes: seq<FileWrite>)
    ensures result == RunOutcome(names, saved, oracle)
    ensures writes == RunWrites(names, saved, oracle)
  {
    var n := |names|;
    var records := Prior(saved);
    var start := StartIndex(saved);
    var progressExists := saved.Some?;
    writes := [];
    if start < 0 {
      result := Crashed;
      return;
    }
    if start <= n {
      var i := start;
      while i < n
        invariant start <= i <= n
        invariant records == Prior(saved) + EnrichRange(names, oracle, start, i)
        invariant writes == Checkpoints(names, oracle, Prior(saved), start, i)
        invariant progressExists == (saved.Some? || writes != [])
      {
        var enriched := EnrichProduct(names[i], oracle(i));
        records := records + [enriched];
        if (i + 1) % 10 == 0 {
          writes := writes + [SaveProgress(Checkpoint(n, i + 1, records))];
          progressExists := true;
        }
        i := i + 1;
      }
    }
    assert records == FinalRecords(names, saved, oracle);
    assert writes == RunCheckpoints(names, saved, oracle);
    assert progressExists == ProgressFileAtEnd(names, saved, oracle);
    writes := writes + [WriteEnriched(records)];
    if TallyCrashes(records) {
      result := Crashed;
      return;
    }
    result := Completed(records, Categories(records), CategoryCounts(records));
    if progressExists {
      writes := writes + [RemoveProgress];
    }
  }

  // ----- What the run does -----

  /** The records of adjacent ranges join into the records of the whole range. */
  lemma {:induction false} EnrichRangeSplit(names: seq<Js.Value>, oracle: nat -> OracleOutcome, a: nat, b: nat, c: nat)
    requires a <= b <= c <= |names|
    ensures EnrichRange(names, oracle, a, b) + EnrichRange(names, oracle, b, c) == EnrichRange(names, oracle, a, c)
    decreases c
  {
    if c > b {
      EnrichRangeSplit(names, oracle, a, b, c - 1);
    }
  }

  /**
   * Every checkpoint records the number of products, a count of products done that is a multiple of ten past the
   * start, and the records as they stand after that many products.
   */
  lemma {:induction false} CheckpointsSound(names: seq<Js.Value>, oracle: nat -> OracleOutcome, prior: seq<Js.Value>, start: nat, upto: nat)
    requires start <= upto <= |names|
    ensures forall k :: 0 <= k < |Checkpoints(names, oracle, prior, start, upto)| ==>
      var w := Checkpoints(names, oracle, prior, start, upto)[k];
      && w.SaveProgress?
      && w.checkpoint.totalProducts == |names|
      && w.checkpoint.processedCount % 10 == 0
      && start < w.checkpoint.processedCount <= upto
      && w.checkpoint.products == prior + EnrichRange(names, oracle, start, w.checkpoint.processedCount)
    decreases upto
  {
    if upto > start {
      CheckpointsSound(names, oracle, prior, start, upto - 1);
    }
  }

  /** Of any two checkpoints in a log, the later one has more products done. */
  predicate CheckpointsAscend(log: seq<FileWrite>) {
    forall j, k :: 0 <= j < k < |log| && log[j].SaveProgress? && log[k].SaveProgress? ==>
      log[j].checkpoint.processedCount < log[k].checkpoint.processedCount
  }

  /** Checkpoints come in increasing order of products done. */
  lemma {:induction false} CheckpointsIncrease(names: seq<Js.Value>, oracle: nat -> OracleOutcome, prior: seq<Js.Value>, start: nat, upto: nat)
    requires start <= upto <= |names|
    ensures CheckpointsAscend(Checkpoints(names, oracle, prior, start, upto))
    decreases upto
  {
    if upto > start {
      CheckpointsIncrease(names, oracle, prior, start, upto - 1);
      CheckpointsSound(names, oracle, prior, start, upto - 1);
      var before := Checkpoints(names, oracle, prior, start, upto - 1);
      var after := Checkpoints(names, oracle, prior, start, upto);
      forall j, k | 0 <= j < k < |after| && after[j].SaveProgress? && after[k].SaveProgress?
        ensures after[j].checkpoint.processedCount < after[k].checkpoint.processedCount
      {
        assert after[j] == before[j];
        if k < |before| {
          assert after[k] == before[k];
        }
      }
    }
  }

  /** A checkpoint is written for every multiple of ten past the start. */
  lemma {:induction false} CheckpointsComplete(names: seq<Js.Value>, oracle: nat -> OracleOutcome, prior: seq<Js.Value>, start: nat, upto: nat)
    requires start <= upto <= |names|
    ensures forall p :: start < p <= upto && p % 10 == 0 ==>
      SaveProgress(Checkpoint(|names|, p, prior + EnrichRange(names, oracle, start, p))) in Checkpoints(names, oracle, prior, start, upto)
    decreases upto
  {
    if upto > start {
      CheckpointsComplete(names, oracle, prior, start, upto - 1);
    }
  }

  /** Only the checkpoints come before the write of the enriched list, which the removal of the progress file can only follow. */
  lemma RunWritesLayout(names: seq<Js.Value>, saved: Option<Saved>, oracle: nat -> OracleOutcome, k: nat)
    requires StartIndex(saved) >= 0
    requires k < |RunWrites(names, saved, oracle)|
    ensures var log := RunWrites(names, saved, oracle);
      var cps := RunCheckpoints(names, saved, oracle);
      && (k < |cps| ==> log[k] == cps[k])
      && (k == |cps| ==> log[k] == WriteEnriched(FinalRecords(names, saved, oracle)))
      && (k > |cps| ==> log[k] == RemoveProgress && k == |log| - 1)
  {
  }

  /**
   * Each checkpoint of a run holds the number of products, a multiple of ten past the start, and the records so
   * far: the prior records and one per product done, which the final list begins with.
   */
  lemma RunCheckpointFacts(names: seq<Js.Value>, saved: Option<Saved>, oracle: nat -> OracleOutcome, k: nat)
    requires StartIndex(saved) >= 0
    requires k < |RunWrites(names, saved, oracle)| && RunWrites(names, saved, oracle)[k].SaveProgress?
    ensures var cp := RunWrites(names, saved, oracle)[k].checkpoint;
      && cp.totalProducts == |names|
      && cp.processedCount % 10 == 0
      && StartIndex(saved) < cp.processedCount <= |names|
      && cp.products == Prior(saved) + EnrichRange(names, oracle, StartIndex(saved), cp.processedCount)
      && Seqs.IsPrefix(cp.products, FinalRecords(names, saved, oracle))
  {
    var start := StartIndex(saved);
    var cps := RunCheckpoints(names, saved, oracle);
    RunWritesLayout(names, saved, oracle, k);
    assert k < |cps|;
    assert start <= |names|;
    CheckpointsSound(names, oracle, Prior(saved), start, |names|);
    var cp := cps[k].checkpoint;
    var done := EnrichRange(names, oracle, start, cp.processedCount);
    var rest := EnrichRange(names, oracle, cp.processedCount, |names|);
    EnrichRangeSplit(names, oracle, start, cp.processedCount, |names|);
    Seqs.ConcatAssoc(Prior(saved), done, rest);
    Seqs.PrefixOfConcat(cp.products, rest);
  }

  /** A run writes a checkpoint for every multiple of ten past its start, up to the number of products. */
  lemma RunCheckpointsComplete(names: seq<Js.Value>, saved: Option<Saved>, oracle: nat -> OracleOutcome, p: nat)
    requires StartIndex(saved) >= 0
    requires StartIndex(saved) < p <= |names| && p % 10 == 0
    ensures SaveProgress(Checkpoint(|names|, p, Prior(saved) + EnrichRange(names, oracle, StartIndex(saved), p)))
      in RunWrites(names, saved, oracle)
  {
    CheckpointsComplete(names, oracle, Prior(saved), StartIndex(saved), |names|);
  }

  /** A run writes its checkpoints in increasing order of products done. */
  lemma RunCheckpointsAscend(names: seq<Js.Value>, saved: Option<Saved>, oracle: nat -> OracleOutcome)
    requires StartIndex(saved) >= 0
    ensures CheckpointsAscend(RunWrites(names, saved, oracle))
  {
    var log := RunWrites(names, saved, oracle);
    var cps := RunCheckpoints(names, saved, oracle);
    if StartIndex(saved) <= |names| {
      CheckpointsIncrease(names, oracle, Prior(saved), StartIndex(saved), |names|);
    }
    forall j, k | 0 <= j < k < |log| && log[j].SaveProgress? && log[k].SaveProgress?
      ensures log[j].checkpoint.processedCount < log[k].checkpoint.processedCount
    {
      RunWritesLayout(names, saved, oracle, j);
      RunWritesLayout(names, saved, oracle, k);
    }
  }

  /**
   * The progress file is removed exactly when the run completes and the file exists by then: it was there at
   * the start or a checkpoint created it.
   */
  lemma RemovalOnlyAfterCompletion(names: seq<Js.Value>, saved: Option<Saved>, oracle: nat -> OracleOutcome)
    requires StartIndex(saved) >= 0
    ensures RemoveProgress in RunWrites(names, saved, oracle) <==>
      RunOutcome(names, saved, oracle).Completed? && (saved.Some? || exists k :: 0 <= k < |RunWrites(names, saved, oracle)| && RunWrites(names, saved, oracle)[k].SaveProgress?)
    ensures WriteEnriched(FinalRecords(names, saved, oracle)) in RunWrites(names, saved, oracle)
  {
    var log := RunWrites(names, saved, oracle);
    var cps := RunCheckpoints(names, saved, oracle);
    RunWritesLayout(names, saved, oracle, |cps|);
    if StartIndex(saved) <= |names| {
      CheckpointsSound(names, oracle, Prior(saved), StartIndex(saved), |names|);
    }
    if cps != [] {
      RunWritesLayout(names, saved, oracle, 0);
    }
    if exists k :: 0 <= k < |log| && log[k].SaveProgress? {
      var k :| 0 <= k < |log| && log[k].SaveProgress?;
      RunWritesLayout(names, saved, oracle, k);
    }
    if RemoveProgress in log {
      var k :| 0 <= k < |log| && log[k] == RemoveProgress;
      RunWritesLayout(names, saved, oracle, k);
    }
  }

  /** The final list is the prior records followed by one record per product from the start on. */
  lemma FinalRecordsShape(names: seq<Js.Value>, saved: Option<Saved>, oracle: nat -> OracleOutcome)
    requires 0 <= StartIndex(saved) <= |names|
    ensures |FinalRecords(names, saved, oracle)| == |Prior(saved)| + |names| - StartIndex(saved)
    ensures Seqs.IsPrefix(Prior(saved), FinalRecords(names, saved, oracle))
  {
    Seqs.PrefixOfConcat(Prior(saved), EnrichRange(names, oracle, StartIndex(saved), |names|));
  }

  /** After the prior records, the records follow product order: record `|Prior(saved)| + j` is that of product `start + j`. */
  lemma FinalRecordAt(names: seq<Js.Value>, saved: Option<Saved>, oracle: nat -> OracleOutcome, j: nat)
    requires 0 <= StartIndex(saved) && StartIndex(saved) + j < |names|
    ensures |Prior(saved)| + j < |FinalRecords(names, saved, oracle)|
    ensures FinalRecords(names, saved, oracle)[|Prior(saved)| + j] ==
      EnrichProduct(names[StartIndex(saved) + j], oracle(StartIndex(saved) + j))
  {
    EnrichRangeAt(names, oracle, StartIndex(saved), |names|, j);
  }

  /** No record of a range is `null` or `undefined`, so the tally over fresh records cannot throw. */
  lemma RangeReadable(names: seq<Js.Value>, oracle: nat -> OracleOutcome, lo: nat, hi: nat)
    requires lo <= hi <= |names|
    ensures !TallyCrashes(EnrichRange(names, oracle, lo, hi))
  {
    var records := EnrichRange(names, oracle, lo, hi);
    forall k | 0 <= k < |records|
      ensures !Unreadable(records[k])
    {
      EnrichRangeAt(names, oracle, lo, hi, k);
    }
  }

  /** A run without a progress file to resume from enriches every product and always completes. */
  lemma FreshRunCompletes(names: seq<Js.Value>, saved: Option<Saved>, oracle: nat -> OracleOutcome)
    requires !Resumes(saved)
    ensures RunOutcome(names, saved, oracle).Completed?
    ensures RunOutcome(names, saved, oracle).records == EnrichRange(names, oracle, 0, |names|)
  {
    assert FinalRecords(names, saved, oracle) == EnrichRange(names, oracle, 0, |names|);
    RangeReadable(names, oracle, 0, |names|);
  }

  /**
   * Stopping after any checkpoint and running again from it gives the same final list and the same tally, as
   * long as the model answers each product as before.
   */
  lemma ResumeFromCheckpointAgrees(names: seq<Js.Value>, saved: Option<Saved>, oracle: nat -> OracleOutcome, k: nat)
    requires StartIndex(saved) >= 0
    requires k < |RunWrites(names, saved, oracle)| && RunWrites(names, saved, oracle)[k].SaveProgress?
    ensures var cp := RunWrites(names, saved, oracle)[k].checkpoint;
      var resumed := Some(Saved(cp.processedCount, Some(cp.products)));
      && StartIndex(resumed) == cp.processedCount
      && FinalRecords(names, resumed, oracle) == FinalRecords(names, saved, oracle)
      && RunOutcome(names, resumed, oracle) == RunOutcome(names, saved, oracle)
  {
    var cp := RunWrites(names, saved, oracle)[k].checkpoint;
    RunCheckpointFacts(names, saved, oracle, k);
    var start := StartIndex(saved);
    var done := EnrichRange(names, oracle, start, cp.processedCount);
    var rest := EnrichRange(names, oracle, cp.processedCount, |names|);
    EnrichRangeSplit(names, oracle, start, cp.processedCount, |names|);
    Seqs.ConcatAssoc(Prior(saved), done, rest);
  }

  // ----- The category tally -----

  /** The categories are distinct and are exactly the categories of the records. */
  lemma CategoriesAreDistinct(records: seq<Js.Value>)
    ensures Seqs.NoDup(Categories(records))
    ensures forall c :: c in Categories(records) <==> exists k :: 0 <= k < |records| && Category(records[k]) == c
  {
    var keys := Seqs.Map(Category, records);
    Seqs.DistinctMembers(keys);
    Seqs.DistinctNoDup(keys);
    forall c
      ensures c in keys <==> exists k :: 0 <= k < |records| && Category(records[k]) == c
    {
      if c in keys {
        var k :| 0 <= k < |keys| && keys[k] == c;
        Seqs.MapAt(Category, records, k);
      }
      if exists k :: 0 <= k < |records| && Category(records[k]) == c {
        var k :| 0 <= k < |records| && Category(records[k]) == c;
        Seqs.MapAt(Category, records, k);
      }
    }
  }

  /** The categories come in the order in which each first appears among the records. */
  lemma CategoriesInFirstSeenOrder(records: seq<Js.Value>, j: nat, k: nat)
    requires j < k < |Categories(records)|
    ensures Categories(records)[j] in Seqs.Map(Category, records) && Categories(records)[k] in Seqs.Map(Category, records)
    ensures Seqs.FirstIndex(Seqs.Map(Category, records), Categories(records)[j]) <
      Seqs.FirstIndex(Seqs.Map(Category, records), Categories(records)[k])
  {
    Seqs.DistinctFirstSeen(Seqs.Map(Category, records), j, k);
  }

  /** The count of each category is the number of records in it, at least one. */
  lemma CategoryCountAt(records: seq<Js.Value>, j: nat)
    requires j < |Categories(records)|
    ensures |CategoryCounts(records)| == |Categories(records)|
    ensures CategoryCounts(records)[j] == |Seqs.Filter(Seqs.KeyIs(Category, Categories(records)[j]), records)| >= 1
  {
    var keys := Seqs.Map(Category, records);
    Seqs.DistinctKept(keys, j);
    Seqs.CountKeyPresent(Category, records, Categories(records)[j]);
  }

  /** The counts add up to the number of records: every record is counted once. */
  lemma CountsCoverAllRecords(records: seq<Js.Value>)
    ensures Seqs.Sum(CategoryCounts(records)) == |records|
  {
    Seqs.TallyCoversAll(Category, records);
  }

}
