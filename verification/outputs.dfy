/**
 * The data `write_outputs` produces, with the file system taken away: the
 * rows written to `keys.csv` and the list written back to `index.json`.
 * Timestamps arrive already rendered as text, as they are in the payload.
 */
module Outputs {
  import opened Wrappers
  import KeyCodec

  /** The batch record `main` assembles and hands to `write_outputs`. */
  datatype Payload = Payload(
    generatedAtPht: string,
    generatedAtUtc: string,
    unit: string,
    amount: int,
    count: int,            // the requested count, as given on the command line
    tag: Option<string>,   // read with `payload.get("tag", "")`
    expiresAtPht: string,
    expiresAtUtc: string,
    expiresAtUnix: int,
    keys: seq<string>)

  /** A CSV field before the writer turns it into text. */
  datatype Cell = Text(text: string) | Number(number: int)

  const CsvHeader: seq<Cell> := [
    Text("key"), Text("generated_at_pht"), Text("expires_at_pht"), Text("expires_at_unix"),
    Text("unit"), Text("amount"), Text("tag")]

  function TagOf(p: Payload): string {
    p.tag.GetOr("")
  }

  /** The constant `timezone` entry of every payload. */
  const TimezoneLabel: string := "Asia/Manila (GMT+8)"

  /**
   * `payload[name]` for the scalar entries of the payload, and
   * `payload.get("tag", "")` for the tag; `None` for the key list and for
   * names the payload does not have.
   */
  function PayloadField(p: Payload, name: string): Option<Cell> {
    match name
    case "generated_at_pht" => Some(Text(p.generatedAtPht))
    case "generated_at_utc" => Some(Text(p.generatedAtUtc))
    case "unit" => Some(Text(p.unit))
    case "amount" => Some(Number(p.amount))
    case "count" => Some(Number(p.count))
    case "tag" => Some(Text(TagOf(p)))
    case "expires_at_pht" => Some(Text(p.expiresAtPht))
    case "expires_at_utc" => Some(Text(p.expiresAtUtc))
    case "expires_at_unix" => Some(Number(p.expiresAtUnix))
    case "timezone" => Some(Text(TimezoneLabel))
    case _ => None
  }

  /** The six fields after the key, the same on every row of a batch: each is the payload entry its header names. */
  function BatchColumns(p: Payload): (cells: seq<Cell>)
    ensures |cells| + 1 == |CsvHeader|
    ensures forall j :: 1 <= j < |CsvHeader| ==> PayloadField(p, CsvHeader[j].text) == Some(cells[j - 1])
  {
    [Text(p.generatedAtPht), Text(p.expiresAtPht), Number(p.expiresAtUnix), Text(p.unit),
     Number(p.amount), Text(TagOf(p))]
  }

  /** The rows of `keys.csv`: the header, then one row per key in key order. */
  method CsvRows(p: Payload) returns (rows: seq<seq<Cell>>)
    ensures |rows| == |p.keys| + 1
    ensures rows[0] == CsvHeader
    ensures forall i :: 0 <= i < |rows| ==> |rows[i]| == |CsvHeader|
    ensures forall i :: 1 <= i < |rows| ==> rows[i][0] == Text(p.keys[i - 1])
    ensures forall i :: 1 <= i < |rows| ==> rows[i][1..] == BatchColumns(p)
  {
    rows := [CsvHeader];
    for i := 0 to |p.keys|
      invariant |rows| == i + 1
      invariant rows[0] == CsvHeader
      invariant forall j :: 0 <= j < |rows| ==> |rows[j]| == |CsvHeader|
      invariant forall j :: 1 <= j < |rows| ==> rows[j] == [Text(p.keys[j - 1])] + BatchColumns(p)
    {
      rows := rows + [[Text(p.keys[i])] + BatchColumns(p)];
    }
  }

  // ---------------------------------------------------------------------------
  // index.json
  // ---------------------------------------------------------------------------

  /** A JSON document (numbers restricted to integers). */
  datatype Json =
    | JNull
    | JBool(b: bool)
    | JNumber(n: int)
    | JString(s: string)
    | JArray(items: seq<Json>)
    | JObject(fields: seq<(string, Json)>)

  /** What reading `index.json` yields before the new summary is appended. */
  datatype IndexFile =
    | Missing                // the file does not exist
    | Unreadable             // reading or `json.loads` raised
    | Parsed(document: Json) // whatever JSON value the file held

  /** `index.append` on a JSON value that is not a list raises AttributeError. */
  datatype IndexError = NotAList(document: Json)

  /** One entry of the run index. */
  datatype RunSummary = RunSummary(
    run: string, unit: string, amount: int, count: int,
    generatedAtPht: string, expiresAtPht: string, tag: string)

  /** The summary of a run; `run` is the name of the run folder. */
  function Summarize(p: Payload, run: string): (s: RunSummary)
    ensures s.count == |p.keys|
    ensures s.run == run && s.unit == p.unit && s.amount == p.amount && s.tag == TagOf(p)
    ensures s.generatedAtPht == p.generatedAtPht && s.expiresAtPht == p.expiresAtPht
  {
    RunSummary(run, p.unit, p.amount, |p.keys|, p.generatedAtPht, p.expiresAtPht, TagOf(p))
  }

  /** The value stored under `name` in a JSON object's fields: the first pair with that name. */
  function FieldValue(fields: seq<(string, Json)>, name: string): Option<Json> {
    if fields == [] then None
    else if fields[0].0 == name then Some(fields[0].1)
    else FieldValue(fields[1..], name)
  }

  /** A run summary read back from an index entry by field name, if every field has the right kind. */
  function SummaryOfJson(j: Json): Option<RunSummary> {
    if !j.JObject? then None
    else
      match (FieldValue(j.fields, "run"), FieldValue(j.fields, "unit"), FieldValue(j.fields, "amount"),
             FieldValue(j.fields, "count"), FieldValue(j.fields, "generated_at_pht"),
             FieldValue(j.fields, "expires_at_pht"), FieldValue(j.fields, "tag"))
      case (Some(JString(run)), Some(JString(unit)), Some(JNumber(amount)), Some(JNumber(count)),
            Some(JString(generated)), Some(JString(expires)), Some(JString(tag))) =>
        Some(RunSummary(run, unit, amount, count, generated, expires, tag))
      case _ => None
  }

  /** The lookup finds the first field with the name. */
  lemma {:induction false} FieldValueAt(fields: seq<(string, Json)>, i: nat, name: string)
    requires i < |fields| && fields[i].0 == name
    requires forall k :: 0 <= k < i ==> fields[k].0 != name
    ensures FieldValue(fields, name) == Some(fields[i].1)
    decreases i
  {
    if i > 0 {
      FieldValueAt(fields[1..], i - 1, name);
    }
  }

  /** The index entry for a run: a JSON object with seven named fields from which the whole summary reads back. */
  function SummaryJson(s: RunSummary): (j: Json)
    ensures j.JObject? && |j.fields| == 7
    ensures SummaryOfJson(j) == Some(s)
  {
    var fields := [
      ("run", JString(s.run)),
      ("unit", JString(s.unit)),
      ("amount", JNumber(s.amount)),
      ("count", JNumber(s.count)),
      ("generated_at_pht", JString(s.generatedAtPht)),
      ("expires_at_pht", JString(s.expiresAtPht)),
      ("tag", JString(s.tag))];
    FieldValueAt(fields, 0, "run");
    FieldValueAt(fields, 1, "unit");
    FieldValueAt(fields, 2, "amount");
    FieldValueAt(fields, 3, "count");
    FieldValueAt(fields, 4, "generated_at_pht");
    FieldValueAt(fields, 5, "expires_at_pht");
    FieldValueAt(fields, 6, "tag");
    JObject(fields)
  }

  /** The entries already in the index: the stored list, or none when the file is missing or unreadable. */
  function PriorEntries(file: IndexFile): seq<Json> {
    match file
    case Parsed(JArray(items)) => items
    case _ => []
  }

  /** Whether appending to what was read succeeds: only a non-list document makes it fail. */
  predicate AppendSucceeds(file: IndexFile) {
    !file.Parsed? || file.document.JArray?
  }

  /**
   * The list written back to `index.json`: what was read (or an empty list
   * when the file is missing or unreadable) with the run's summary appended.
   */
  function AppendedIndex(file: IndexFile, p: Payload, run: string): (r: Result<seq<Json>, IndexError>)
    ensures r.Ok? <==> AppendSucceeds(file)
  {
    if AppendSucceeds(file) then Ok(PriorEntries(file) + [SummaryJson(Summarize(p, run))])
    else Err(NotAList(file.document))
  }

  /**
   * Appending fails exactly on a stored value that is not a list; otherwise
   * every earlier entry is kept in place and exactly one summary is added last.
   */
  lemma AppendKeepsIndex(file: IndexFile, p: Payload, run: string)
    ensures var r := AppendedIndex(file, p, run);
      && (r.Ok? <==> AppendSucceeds(file))
      && (r.Err? ==> r == Err(NotAList(file.document)))
      && (r.Ok? ==> |r.value| == |PriorEntries(file)| + 1)
      && (r.Ok? ==> r.value[..|r.value| - 1] == PriorEntries(file))
      && (r.Ok? ==> r.value[|r.value| - 1] == SummaryJson(Summarize(p, run)))
  {
  }

  /** The read-then-append step of `write_outputs`. */
  method AppendRunSummary(file: IndexFile, p: Payload, run: string) returns (r: Result<seq<Json>, IndexError>)
    ensures r == AppendedIndex(file, p, run)
  {
    var index: Json := JArray([]);
    if file != Missing {
      match file {
        case Parsed(document) => index := document;
        case Unreadable => index := JArray([]);
      }
    }
    if !index.JArray? {
      return Err(NotAList(index));
    }
    var entries := index.items + [SummaryJson(Summarize(p, run))];
    r := Ok(entries);
  }

  /**
   * The index after a sequence of runs, each reading back the list the
   * previous one wrote, starting from no file at all.
   */
  function IndexAfter(runs: seq<(Payload, string)>): (entries: seq<Json>)
    decreases |runs|, 0
  {
    if runs == [] then []
    else
      var last := runs[|runs| - 1];
      AppendedIndex(StoredIndex(runs[..|runs| - 1]), last.0, last.1).value
  }

  /** What the next run reads: no file before the first run, then the list the last run wrote. */
  function StoredIndex(runs: seq<(Payload, string)>): IndexFile
    decreases |runs|, 1
  {
    if runs == [] then Missing else Parsed(JArray(IndexAfter(runs)))
  }

  /** Appending to a stored list, or to no file at all, always succeeds. */
  lemma AppendToStored(runs: seq<(Payload, string)>, p: Payload, run: string)
    ensures AppendedIndex(StoredIndex(runs), p, run) == Ok(IndexAfter(runs) + [SummaryJson(Summarize(p, run))])
  {
  }

  /** One more run appends exactly its own summary to the index the earlier runs left. */
  lemma IndexAfterStep(runs: seq<(Payload, string)>)
    requires runs != []
    ensures IndexAfter(runs) == IndexAfter(runs[..|runs| - 1]) + [SummaryJson(Summarize(runs[|runs| - 1].0, runs[|runs| - 1].1))]
  {
    var last := runs[|runs| - 1];
    AppendToStored(runs[..|runs| - 1], last.0, last.1);
  }

  /** After N runs the index holds N entries, the i-th summarising the i-th run. */
  lemma {:induction false} IndexAfterRuns(runs: seq<(Payload, string)>)
    ensures |IndexAfter(runs)| == |runs|
    ensures forall i :: 0 <= i < |runs| ==> IndexAfter(runs)[i] == SummaryJson(Summarize(runs[i].0, runs[i].1))
    decreases |runs|
  {
    if runs != [] {
      var init := runs[..|runs| - 1];
      IndexAfterRuns(init);
      IndexAfterStep(runs);
      assert forall i :: 0 <= i < |init| ==> init[i] == runs[i];
    }
  }

  /**
   * The summary counts the keys actually made, not the count that was asked
   * for: `range(count)` makes no keys when `count` is zero or negative.
   */
  lemma SummaryCountsKeys(p: Payload, run: string, blocks: seq<seq<KeyCodec.Byte>>)
    requires |blocks| == if p.count > 0 then p.count else 0
    requires p.keys == KeyCodec.MakeKeys(blocks)
    ensures Summarize(p, run).count == if p.count > 0 then p.count else 0
    ensures p.count < 0 ==> Summarize(p, run).count != p.count
  {
  }
}
