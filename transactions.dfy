/** The parsed dataset: lines of text turned into card transactions or insurance claims, kept
    in three parallel lists, and the transaction graph built from them. */
module Transactions {
  import opened Wrappers
  import opened Text
  import opened Sequences
  import opened Graphs

  const CreditCard: string := "credit_card"
  const Insurance: string := "insurance"

  /** One parsed record; which kind it is follows the dataset's data type. */
  datatype Transaction =
    | CardTransaction(timestamp: real, amount: real, merchant: string, cardId: string)
    | InsuranceClaim(claimDate: string, claimAmount: real, policyId: string, claimType: string)

  /** What one line appends to the three lists: a timestamp, an amount and the record. */
  datatype Entry = Entry(timestamp: real, amount: real, record: Transaction)

  /** The exception a malformed line raises: a missing field or a text that does not convert. */
  datatype ParseError = IndexError | ValueError

  /** Python's `float(text)` and the date-to-timestamp conversion, which depends on the local
      time zone; `None` stands for the `ValueError` either raises. */
  datatype Conversions = Conversions(toFloat: string -> Option<real>, toTimestamp: string -> Option<real>)

  /** The records parsed so far and, when a line raised, the error that stopped the parse. */
  datatype ParseOutcome = ParseOutcome(entries: seq<Entry>, failure: Option<ParseError>)

  function Amount(t: Transaction): real {
    match t
    case CardTransaction(_, amount, _, _) => amount
    case InsuranceClaim(_, claimAmount, _, _) => claimAmount
  }

  /** The graph edge a record contributes: card to merchant, or policy to claim type. */
  function Source(t: Transaction): Node {
    match t
    case CardTransaction(_, _, _, cardId) => cardId
    case InsuranceClaim(_, _, policyId, _) => policyId
  }

  function Destination(t: Transaction): Node {
    match t
    case CardTransaction(_, _, merchant, _) => merchant
    case InsuranceClaim(_, _, _, claimType) => claimType
  }

  /** The entry is of the data type's kind and its amount is the record's; a card entry's
      timestamp is also the record's. No entry suits an unknown data type. */
  predicate Consistent(e: Entry, dataType: string) {
    && e.amount == Amount(e.record)
    && (dataType == CreditCard ==> e.record.CardTransaction? && e.timestamp == e.record.timestamp)
    && (dataType == Insurance ==> e.record.InsuranceClaim?)
    && (dataType == CreditCard || dataType == Insurance)
  }

  /** A line is blank when it is all whitespace, which is when its `Strip` is empty. */
  predicate IsBlank(line: string) {
    forall k :: 0 <= k < |line| ==> IsSpace(line[k])
  }

  lemma BlankIffStripsToNothing(line: string)
    ensures IsBlank(line) <==> Strip(line) == []
  {
  }

  /** The fields of a non-blank line: comma-free pieces that join back into the stripped line. */
  function Fields(line: string): (parts: seq<string>)
    ensures |parts| >= 1 && forall k :: 0 <= k < |parts| ==> ',' !in parts[k]
    ensures Join(parts, ',') == Strip(line)
  {
    JoinSplit(Strip(line), ',');
    Split(Strip(line), ',')
  }

  /** A line of a known data type parses when it has four fields and its numeric (card:
      timestamp and amount; claim: amount and date) fields convert; extra fields are ignored. */
  predicate Parses(line: string, dataType: string, conv: Conversions) {
    var parts := Fields(line);
    && |parts| >= 4
    && conv.toFloat(parts[1]).Some?
    && (dataType == CreditCard ==> conv.toFloat(parts[0]).Some?)
    && (dataType == Insurance ==> conv.toTimestamp(parts[0]).Some?)
  }

  /** One iteration of the parse loop. Blank lines, and every line of an unknown data type,
      add nothing. The fields are read in `__parse_data`'s order, so the first problem met decides
      which error is raised. */
  function ParseLine(line: string, dataType: string, conv: Conversions): (r: Result<Option<Entry>, ParseError>)
    ensures IsBlank(line) || (dataType != CreditCard && dataType != Insurance) ==> r == Success(None)
    ensures !IsBlank(line) && (dataType == CreditCard || dataType == Insurance) ==>
              (r.Success? <==> Parses(line, dataType, conv)) && (r.Success? ==> r.value.Some?)
    ensures r.Success? && r.value.Some? ==> Consistent(r.value.value, dataType)
  {
    if IsBlank(line) then Success(None)
    else
      var parts := Fields(line);
      if dataType == CreditCard then
        var timestamp := conv.toFloat(parts[0]);
        if timestamp.None? then Failure(ValueError)
        else if |parts| < 2 then Failure(IndexError)
        else
          var amount := conv.toFloat(parts[1]);
          if amount.None? then Failure(ValueError)
          else if |parts| < 4 then Failure(IndexError)
          else
            var t := CardTransaction(timestamp.value, amount.value, parts[2], parts[3]);
            Success(Some(Entry(timestamp.value, amount.value, t)))
      else if dataType == Insurance then
        if |parts| < 2 then Failure(IndexError)
        else
          var amount := conv.toFloat(parts[1]);
          if amount.None? then Failure(ValueError)
          else if |parts| < 4 then Failure(IndexError)
          else
            var timestamp := conv.toTimestamp(parts[0]);
            if timestamp.None? then Failure(ValueError)
            else
              var t := InsuranceClaim(parts[0], amount.value, parts[2], parts[3]);
              Success(Some(Entry(timestamp.value, amount.value, t)))
      else Success(None)
  }

  /** One access the parse makes to a line's fields: reading a field, converting it with
      `float`, or converting it as a date. */
  datatype Access = Fetch(field: nat) | Convert(field: nat) | ConvertDate(field: nat)

  /** The accesses of one line in the order the parse makes them: a card accesses `float(parts[0])`,
      `float(parts[1])`, `parts[2]` and `parts[3]`; a claim accesses `parts[0]`, `float(parts[1])`,
      `parts[2]` and `parts[3]`, and converts the date `parts[0]` when appending its timestamp. */
  function Accesses(dataType: string): seq<Access> {
    if dataType == CreditCard then [Convert(0), Convert(1), Fetch(2), Fetch(3)]
    else if dataType == Insurance then [Fetch(0), Convert(1), Fetch(2), Fetch(3), ConvertDate(0)]
    else []
  }

  /** The exception one access raises: `IndexError` for a missing field, `ValueError` for a
      field that does not convert. */
  function Problem(access: Access, parts: seq<string>, conv: Conversions): Option<ParseError> {
    if access.field >= |parts| then Some(IndexError)
    else match access
      case Fetch(_) => None
      case Convert(f) => if conv.toFloat(parts[f]).None? then Some(ValueError) else None
      case ConvertDate(f) => if conv.toTimestamp(parts[f]).None? then Some(ValueError) else None
  }

  /** The exception of the first access that raises, if any. */
  function FirstProblem(accesses: seq<Access>, parts: seq<string>, conv: Conversions): (e: Option<ParseError>)
    ensures e.None? <==> forall k :: 0 <= k < |accesses| ==> Problem(accesses[k], parts, conv).None?
  {
    if |accesses| == 0 then None
    else if Problem(accesses[0], parts, conv).Some? then Problem(accesses[0], parts, conv)
    else
      var rest := FirstProblem(accesses[1..], parts, conv);
      assert forall k :: 1 <= k < |accesses| ==> accesses[k] == accesses[1..][k - 1];
      rest
  }

  /** A non-blank line of a known data type raises exactly the exception of the first of its
      accesses that fails, in the order the parse makes them, and raises nothing when none fails. */
  lemma ParseLineRaisesFirstProblem(line: string, dataType: string, conv: Conversions)
    requires !IsBlank(line) && (dataType == CreditCard || dataType == Insurance)
    ensures var r := ParseLine(line, dataType, conv);
            var e := FirstProblem(Accesses(dataType), Fields(line), conv);
            && (r.Failure? <==> e.Some?)
            && (r.Failure? ==> r.error == e.value)
  {
    var parts := Fields(line);
    var accesses := Accesses(dataType);
    var e := CardOrClaimFirstProblem(accesses, parts, conv);
    if dataType == CreditCard {
      assert e == FirstProblem(accesses, parts, conv);
    }
  }

  /** The first problem of a card's (four accesses) or a claim's (five accesses) line, written out. */
  lemma CardOrClaimFirstProblem(accesses: seq<Access>, parts: seq<string>, conv: Conversions)
    returns (e: Option<ParseError>)
    requires |accesses| == 4 || |accesses| == 5
    ensures e == FirstProblem(accesses, parts, conv)
    ensures var last := if |accesses| == 5 then Problem(accesses[4], parts, conv) else None;
            e == if Problem(accesses[0], parts, conv).Some? then Problem(accesses[0], parts, conv)
                 else if Problem(accesses[1], parts, conv).Some? then Problem(accesses[1], parts, conv)
                 else if Problem(accesses[2], parts, conv).Some? then Problem(accesses[2], parts, conv)
                 else if Problem(accesses[3], parts, conv).Some? then Problem(accesses[3], parts, conv)
                 else last
  {
    if |accesses| == 5 {
      FirstProblemAt(accesses, 4, parts, conv);
      assert accesses[5..] == [];
    } else {
      assert accesses[4..] == [];
    }
    FirstProblemAt(accesses, 3, parts, conv);
    FirstProblemAt(accesses, 2, parts, conv);
    FirstProblemAt(accesses, 1, parts, conv);
    FirstProblemAt(accesses, 0, parts, conv);
    assert accesses[0..] == accesses;
    e := FirstProblem(accesses, parts, conv);
  }

  /** `FirstProblem` from position `k` on: the access at `k` if it fails, or else the rest. */
  lemma FirstProblemAt(accesses: seq<Access>, k: nat, parts: seq<string>, conv: Conversions)
    requires k < |accesses|
    ensures FirstProblem(accesses[k..], parts, conv) ==
              if Problem(accesses[k], parts, conv).Some? then Problem(accesses[k], parts, conv)
              else FirstProblem(accesses[k + 1..], parts, conv)
  {
    assert accesses[k..][1..] == accesses[k + 1..];
  }

  /** A parsed line fills the record's fields from the line's fields: a card takes its
      timestamp and amount from `float` of fields 0 and 1, its merchant from field 2 and its
      card from field 3; a claim takes its date from field 0, its amount from `float` of field 1,
      its policy from field 2, its claim type from field 3, and its timestamp from the date. */
  lemma ParseLineFields(line: string, dataType: string, conv: Conversions)
    requires ParseLine(line, dataType, conv).Success? && ParseLine(line, dataType, conv).value.Some?
    ensures var parts := Fields(line);
            var e := ParseLine(line, dataType, conv).value.value;
            && |parts| >= 4
            && conv.toFloat(parts[1]) == Some(e.amount)
            && (dataType == CreditCard ==>
                  && conv.toFloat(parts[0]) == Some(e.timestamp)
                  && e.record == CardTransaction(e.timestamp, e.amount, parts[2], parts[3]))
            && (dataType == Insurance ==>
                  && conv.toTimestamp(parts[0]) == Some(e.timestamp)
                  && e.record == InsuranceClaim(parts[0], e.amount, parts[2], parts[3]))
  {
  }

  /** A line written as four comma-separated fields, with no surrounding whitespace, parses
      back into a card transaction holding exactly those fields. */
  lemma CardLineRoundTrip(timestamp: string, amount: string, merchant: string, cardId: string, conv: Conversions)
    requires ',' !in timestamp && ',' !in amount && ',' !in merchant && ',' !in cardId
    requires var line := Join([timestamp, amount, merchant, cardId], ','); Strip(line) == line && !IsBlank(line)
    requires conv.toFloat(timestamp).Some? && conv.toFloat(amount).Some?
    ensures var t, a := conv.toFloat(timestamp).value, conv.toFloat(amount).value;
            ParseLine(Join([timestamp, amount, merchant, cardId], ','), CreditCard, conv)
              == Success(Some(Entry(t, a, CardTransaction(t, a, merchant, cardId))))
  {
    SplitJoin([timestamp, amount, merchant, cardId], ',');
  }

  /** A line written as four comma-separated fields, with no surrounding whitespace, parses
      back into an insurance claim holding exactly those fields, timestamped by its date. */
  lemma ClaimLineRoundTrip(claimDate: string, amount: string, policyId: string, claimType: string, conv: Conversions)
    requires ',' !in claimDate && ',' !in amount && ',' !in policyId && ',' !in claimType
    requires var line := Join([claimDate, amount, policyId, claimType], ','); Strip(line) == line && !IsBlank(line)
    requires conv.toTimestamp(claimDate).Some? && conv.toFloat(amount).Some?
    ensures var t, a := conv.toTimestamp(claimDate).value, conv.toFloat(amount).value;
            ParseLine(Join([claimDate, amount, policyId, claimType], ','), Insurance, conv)
              == Success(Some(Entry(t, a, InsuranceClaim(claimDate, a, policyId, claimType))))
  {
    SplitJoin([claimDate, amount, policyId, claimType], ',');
  }

  /** What one line yields: nothing, an entry, or the exception it raises. */
  type LineResult = Result<Option<Entry>, ParseError>

  /** The result of each line, line by line. */
  function LineResults(lines: seq<string>, dataType: string, conv: Conversions): (r: seq<LineResult>)
    ensures |r| == |lines| && forall k :: 0 <= k < |lines| ==> r[k] == ParseLine(lines[k], dataType, conv)
  {
    seq(|lines|, k requires 0 <= k < |lines| => ParseLine(lines[k], dataType, conv))
  }

  /** `ParseLine` for a fixed data type and conversions, as a function of the line. */
  function LineParser(dataType: string, conv: Conversions): string -> LineResult {
    line => ParseLine(line, dataType, conv)
  }

  /** What `step` makes of each line, line by line. */
  function StepResults(lines: seq<string>, step: string -> LineResult): (r: seq<LineResult>)
    ensures |r| == |lines| && forall k :: 0 <= k < |lines| ==> r[k] == step(lines[k])
  {
    seq(|lines|, k requires 0 <= k < |lines| => step(lines[k]))
  }

  /** Every entry `step` yields is of the data type's kind. */
  ghost predicate YieldsConsistent(step: string -> LineResult, dataType: string) {
    forall line :: step(line).Success? && step(line).value.Some? ==> Consistent(step(line).value.value, dataType)
  }

  /** `ParseLine` only yields entries of the data type's kind. */
  lemma LineParserConsistent(dataType: string, conv: Conversions)
    ensures YieldsConsistent(LineParser(dataType, conv), dataType)
  {
  }

  /** The parse loop run over the results of successive lines: entries accumulate until the
      first exception, which ends the loop. */
  function Outcome(results: seq<LineResult>): (r: ParseOutcome)
    ensures |r.entries| <= |results|
    decreases |results|
  {
    if |results| == 0 then ParseOutcome([], None)
    else
      var previous := Outcome(results[..|results| - 1]);
      if previous.failure.Some? then previous
      else
        match results[|results| - 1]
        case Failure(e) => ParseOutcome(previous.entries, Some(e))
        case Success(None) => previous
        case Success(Some(entry)) => ParseOutcome(previous.entries + [entry], None)
  }

  /** The whole parse loop over `lines`. */
  function ParseAll(lines: seq<string>, dataType: string, conv: Conversions): (r: ParseOutcome)
    ensures |r.entries| <= |lines|
  {
    Outcome(LineResults(lines, dataType, conv))
  }

  /** The entry a line's result carries, if any. */
  function Yield(result: LineResult): (r: seq<Entry>)
    ensures |r| <= 1
  {
    if result.Success? && result.value.Some? then [result.value.value] else []
  }

  /** The entries the results carry, in order, whatever the exceptions among them. */
  function Produced(results: seq<LineResult>): (r: seq<Entry>)
    ensures |r| <= |results|
    decreases |results|
  {
    if |results| == 0 then []
    else
      Produced(results[..|results| - 1]) + Yield(results[|results| - 1])
  }

  /** The lines that are not blank, in input order. */
  function NonBlank(lines: seq<string>): (r: seq<string>)
    ensures |r| <= |lines|
    decreases |lines|
  {
    if |lines| == 0 then []
    else NonBlank(lines[..|lines| - 1]) + (if IsBlank(lines[|lines| - 1]) then [] else [lines[|lines| - 1]])
  }

  function Records(entries: seq<Entry>): (r: seq<Transaction>)
    ensures |r| == |entries| && forall k :: 0 <= k < |entries| ==> r[k] == entries[k].record
  {
    seq(|entries|, k requires 0 <= k < |entries| => entries[k].record)
  }

  function Timestamps(entries: seq<Entry>): (r: seq<real>)
    ensures |r| == |entries| && forall k :: 0 <= k < |entries| ==> r[k] == entries[k].timestamp
  {
    seq(|entries|, k requires 0 <= k < |entries| => entries[k].timestamp)
  }

  function Amounts(entries: seq<Entry>): (r: seq<real>)
    ensures |r| == |entries| && forall k :: 0 <= k < |entries| ==> r[k] == entries[k].amount
  {
    seq(|entries|, k requires 0 <= k < |entries| => entries[k].amount)
  }

  /** Once a line has raised, the later lines are never read. */
  lemma {:induction false} OutcomeStops(results: seq<LineResult>, n: nat)
    requires n <= |results|
    requires Outcome(results[..n]).failure.Some?
    ensures Outcome(results) == Outcome(results[..n])
    decreases |results| - n
  {
    if n < |results| {
      assert results[..n + 1][..n] == results[..n];
      OutcomeStops(results, n + 1);
    } else {
      assert results[..n] == results;
    }
  }

  /** One more line: it raises, or it adds the entry it yields, if any. */
  lemma OutcomeStep(results: seq<LineResult>, i: nat)
    requires i < |results|
    requires Outcome(results[..i]).failure.None?
    ensures var done := Outcome(results[..i]).entries;
            Outcome(results[..i + 1]) ==
              if results[i].Failure? then ParseOutcome(done, Some(results[i].error))
              else ParseOutcome(done + Yield(results[i]), None)
  {
    assert results[..i + 1][..i] == results[..i];
  }

  /** Appending one entry to the entries behind three lists appends its fields to the lists. */
  lemma SeriesExtend(records: seq<Transaction>, timestamps: seq<real>, amounts: seq<real>, entries: seq<Entry>, entry: Entry)
    ensures records + Records(entries) + [entry.record] == records + Records(entries + [entry])
    ensures timestamps + Timestamps(entries) + [entry.timestamp] == timestamps + Timestamps(entries + [entry])
    ensures amounts + Amounts(entries) + [entry.amount] == amounts + Amounts(entries + [entry])
  {
    assert Records(entries + [entry]) == Records(entries) + [entry.record];
    assert Timestamps(entries + [entry]) == Timestamps(entries) + [entry.timestamp];
    assert Amounts(entries + [entry]) == Amounts(entries) + [entry.amount];
  }

  /** The loop raises exactly when some line raises, and then it raises the first such line's
      exception, every earlier line having gone through. */
  lemma {:induction false} OutcomeFailsAtFirstFailure(results: seq<LineResult>)
    ensures Outcome(results).failure.None? <==> forall k :: 0 <= k < |results| ==> results[k].Success?
    ensures Outcome(results).failure.Some? ==>
              exists k :: 0 <= k < |results| && results[k] == Failure(Outcome(results).failure.value)
                && forall m :: 0 <= m < k ==> results[m].Success?
    decreases |results|
  {
    if |results| > 0 {
      var front := results[..|results| - 1];
      OutcomeFailsAtFirstFailure(front);
      assert forall m :: 0 <= m < |front| ==> results[m] == front[m];
      var previous := Outcome(front);
      if previous.failure.Some? {
        var k :| 0 <= k < |front| && front[k] == Failure(previous.failure.value)
                 && forall m :: 0 <= m < k ==> front[m].Success?;
        assert results[k] == front[k];
      } else if results[|results| - 1].Failure? {
        assert forall m :: 0 <= m < |results| - 1 ==> results[m].Success?;
      }
    }
  }

  /** A loop that raises nothing keeps every entry the lines yield, in order. */
  lemma {:induction false} OutcomeInOrder(results: seq<LineResult>)
    requires Outcome(results).failure.None?
    ensures Outcome(results).entries == Produced(results)
    decreases |results|
  {
    if |results| > 0 {
      var front := results[..|results| - 1];
      assert Outcome(front).failure.None?;
      OutcomeInOrder(front);
    }
  }

  /** Every entry the loop keeps is one a line yielded. */
  lemma {:induction false} OutcomeEntriesFromResults(results: seq<LineResult>)
    ensures forall j :: 0 <= j < |Outcome(results).entries| ==> Success(Some(Outcome(results).entries[j])) in results
    decreases |results|
  {
    if |results| > 0 {
      var front := results[..|results| - 1];
      OutcomeEntriesFromResults(front);
      assert forall x :: x in front ==> x in results;
    }
  }

  /** Every parsed entry is of the data type's kind, and an unknown data type parses nothing. */
  lemma ParseAllConsistent(lines: seq<string>, dataType: string, conv: Conversions)
    ensures forall j :: 0 <= j < |ParseAll(lines, dataType, conv).entries| ==>
              Consistent(ParseAll(lines, dataType, conv).entries[j], dataType)
  {
    var results := LineResults(lines, dataType, conv);
    var entries := Outcome(results).entries;
    OutcomeEntriesFromResults(results);
    forall j | 0 <= j < |entries|
      ensures Consistent(entries[j], dataType)
    {
      var k :| 0 <= k < |results| && results[k] == Success(Some(entries[j]));
    }
  }

  /** An unknown data type parses every input, blank or not, into no records and no error. */
  lemma {:induction false} UnknownTypeParsesNothing(lines: seq<string>, dataType: string, conv: Conversions)
    requires dataType != CreditCard && dataType != Insurance
    ensures ParseAll(lines, dataType, conv) == ParseOutcome([], None)
  {
    var results := LineResults(lines, dataType, conv);
    OutcomeFailsAtFirstFailure(results);
    OutcomeInOrder(results);
    UnknownTypeProducesNothing(results, lines, dataType, conv);
  }

  lemma {:induction false} UnknownTypeProducesNothing(results: seq<LineResult>, lines: seq<string>, dataType: string, conv: Conversions)
    requires dataType != CreditCard && dataType != Insurance
    requires results == LineResults(lines, dataType, conv)
    ensures Produced(results) == []
    decreases |lines|
  {
    if |lines| > 0 {
      var front := lines[..|lines| - 1];
      assert results[..|results| - 1] == LineResults(front, dataType, conv);
      UnknownTypeProducesNothing(results[..|results| - 1], front, dataType, conv);
    }
  }

  /** The parse raises exactly when some line raises, and then with the first such line's exception. */
  lemma ParseAllFailsAtFirstBadLine(lines: seq<string>, dataType: string, conv: Conversions)
    ensures ParseAll(lines, dataType, conv).failure.None? <==>
              forall k :: 0 <= k < |lines| ==> ParseLine(lines[k], dataType, conv).Success?
    ensures ParseAll(lines, dataType, conv).failure.Some? ==>
              exists k :: 0 <= k < |lines|
                && ParseLine(lines[k], dataType, conv) == Failure(ParseAll(lines, dataType, conv).failure.value)
                && forall m :: 0 <= m < k ==> ParseLine(lines[m], dataType, conv).Success?
  {
    OutcomeFailsAtFirstFailure(LineResults(lines, dataType, conv));
  }

  /** A line reader that, on every line it accepts, yields an entry exactly when the line is not blank. */
  ghost predicate SkipsExactlyBlank(step: string -> LineResult) {
    forall line :: step(line).Success? ==> (step(line).value.Some? <==> !IsBlank(line))
  }

  /** For a known data type, `ParseLine` skips exactly the blank lines. */
  lemma LineParserSkipsBlank(dataType: string, conv: Conversions)
    requires dataType == CreditCard || dataType == Insurance
    ensures SkipsExactlyBlank(LineParser(dataType, conv))
  {
  }

  /** When no line raises, the lines that yield an entry are exactly the non-blank ones. */
  lemma {:induction false} ProducedNonBlank(lines: seq<string>, step: string -> LineResult)
    requires SkipsExactlyBlank(step)
    requires forall k :: 0 <= k < |lines| ==> step(lines[k]).Success?
    ensures |Produced(StepResults(lines, step))| == |NonBlank(lines)|
    ensures forall k :: 0 <= k < |NonBlank(lines)| ==>
              step(NonBlank(lines)[k]) == Success(Some(Produced(StepResults(lines, step))[k]))
    decreases |lines|
  {
    if |lines| > 0 {
      var front, last := lines[..|lines| - 1], lines[|lines| - 1];
      var results := StepResults(lines, step);
      var before := StepResults(front, step);
      assert results[..|results| - 1] == before;
      ProducedNonBlank(front, step);
      var r := step(last);
      assert results[|results| - 1] == r;
      if !IsBlank(last) {
        assert Produced(results) == Produced(before) + [r.value.value];
        assert NonBlank(lines) == NonBlank(front) + [last];
      } else {
        assert Produced(results) == Produced(before);
        assert NonBlank(lines) == NonBlank(front);
      }
    }
  }

  /** A parse of a known data type that raises nothing yields one record per non-blank line, in
      input order, each the parse of its line. */
  lemma ParseAllInOrder(lines: seq<string>, dataType: string, conv: Conversions)
    requires dataType == CreditCard || dataType == Insurance
    requires ParseAll(lines, dataType, conv).failure.None?
    ensures var entries := ParseAll(lines, dataType, conv).entries;
            && |entries| == |NonBlank(lines)|
            && forall k :: 0 <= k < |entries| ==>
                 ParseLine(NonBlank(lines)[k], dataType, conv) == Success(Some(entries[k]))
  {
    var results := LineResults(lines, dataType, conv);
    var step := LineParser(dataType, conv);
    assert StepResults(lines, step) == results;
    OutcomeFailsAtFirstFailure(results);
    OutcomeInOrder(results);
    LineParserSkipsBlank(dataType, conv);
    ProducedNonBlank(lines, step);
  }

  /** The flattened endpoints of the records' edges: source then destination, record by record. */
  function Endpoints(records: seq<Transaction>): (r: seq<Node>)
    ensures |r| == 2 * |records|
    ensures forall k :: 0 <= k < |records| ==> r[2 * k] == Source(records[k]) && r[2 * k + 1] == Destination(records[k])
    decreases |records|
  {
    if |records| == 0 then []
    else
      var last := records[|records| - 1];
      Endpoints(records[..|records| - 1]) + [Source(last), Destination(last)]
  }

  /** The ordered pair of nodes a record joins. */
  function Pair(t: Transaction): (Node, Node) {
    (Source(t), Destination(t))
  }

  /** The graph the records build, one `AddEdge` per record in order. */
  function TransactionGraph(records: seq<Transaction>): Graph
    decreases |records|
  {
    if |records| == 0 then Empty
    else
      var last := records[|records| - 1];
      AddEdge(TransactionGraph(records[..|records| - 1]), Source(last), Destination(last), Amount(last))
  }

  /** The graph lists each node once and joins only listed nodes. */
  lemma {:induction false} TransactionGraphWellFormed(records: seq<Transaction>)
    ensures WellFormed(TransactionGraph(records))
    decreases |records|
  {
    if |records| > 0 {
      var front := records[..|records| - 1];
      var last := records[|records| - 1];
      TransactionGraphWellFormed(front);
      AddEdgeWellFormed(TransactionGraph(front), Source(last), Destination(last), Amount(last));
    }
  }

  /** Non-negative amounts give non-negative weights. */
  lemma {:induction false} TransactionGraphNonNegative(records: seq<Transaction>)
    requires forall k :: 0 <= k < |records| ==> Amount(records[k]) >= 0.0
    ensures NonNegative(TransactionGraph(records))
    decreases |records|
  {
    if |records| > 0 {
      var front := records[..|records| - 1];
      var last := records[|records| - 1];
      assert forall k :: 0 <= k < |front| ==> front[k] == records[k];
      TransactionGraphNonNegative(front);
      assert Amount(last) >= 0.0;
      AddEdgeWellFormed(TransactionGraph(front), Source(last), Destination(last), Amount(last));
    }
  }

  /** Adding an edge appends its endpoints to the node list as `Dedup` appends them. */
  lemma AddEdgeNodes(g: Graph, e: seq<Node>, u: Node, v: Node, w: real)
    requires g.nodes == Dedup(e)
    ensures AddEdge(g, u, v, w).nodes == Dedup(e + [u, v])
  {
    var all := e + [u, v];
    assert all[..|all| - 1] == e + [u];
    assert (e + [u])[..|e|] == e;
    var withSource := Dedup(e + [u]);
    assert withSource == if u in g.nodes then g.nodes else g.nodes + [u];
    assert Dedup(all) == if v in withSource then withSource else withSource + [v];
  }

  /** The graph has one node per distinct identifier, in order of first appearance. */
  lemma {:induction false} TransactionGraphNodes(records: seq<Transaction>)
    ensures TransactionGraph(records).nodes == Dedup(Endpoints(records))
    decreases |records|
  {
    if |records| > 0 {
      var front, last := records[..|records| - 1], records[|records| - 1];
      TransactionGraphNodes(front);
      AddEdgeNodes(TransactionGraph(front), Endpoints(front), Source(last), Destination(last), Amount(last));
    }
  }

  /** No later record joins the same pair as record `k`. */
  predicate IsLastOfPair(records: seq<Transaction>, k: nat)
    requires k < |records|
  {
    forall m :: k < m < |records| ==> Pair(records[m]) != Pair(records[k])
  }

  /** The pairs the records join. */
  function Pairs(records: seq<Transaction>): set<(Node, Node)> {
    set k | 0 <= k < |records| :: Pair(records[k])
  }

  lemma PairsSnoc(records: seq<Transaction>)
    requires |records| > 0
    ensures Pairs(records) == Pairs(records[..|records| - 1]) + {Pair(records[|records| - 1])}
  {
    var front, last := records[..|records| - 1], records[|records| - 1];
    forall e | e in Pairs(records)
      ensures e in Pairs(front) + {Pair(last)}
    {
      var k :| 0 <= k < |records| && Pair(records[k]) == e;
      if k < |front| {
        assert Pair(front[k]) == e;
      }
    }
    forall e | e in Pairs(front)
      ensures e in Pairs(records)
    {
      var k :| 0 <= k < |front| && Pair(front[k]) == e;
      assert Pair(records[k]) == e;
    }
    assert Pair(records[|records| - 1]) in Pairs(records);
  }

  /** The edges are exactly the pairs the records join. */
  lemma {:induction false} TransactionGraphEdges(records: seq<Transaction>)
    ensures TransactionGraph(records).weight.Keys == Pairs(records)
    decreases |records|
  {
    if |records| > 0 {
      var front, last := records[..|records| - 1], records[|records| - 1];
      TransactionGraphEdges(front);
      var before := TransactionGraph(front);
      var g := TransactionGraph(records);
      assert g == AddEdge(before, Source(last), Destination(last), Amount(last));
      AddEdgeEdges(before, Source(last), Destination(last), Amount(last));
      PairsSnoc(records);
      assert g.weight.Keys == before.weight.Keys + {Pair(last)};
    }
  }

  /** An edge weighs the amount of the last record joining its pair: a repeated pair overwrites
      the weight, it does not add to it. */
  lemma {:induction false} TransactionGraphWeights(records: seq<Transaction>)
    ensures forall k :: 0 <= k < |records| && IsLastOfPair(records, k) ==>
              Pair(records[k]) in TransactionGraph(records).weight
              && TransactionGraph(records).weight[Pair(records[k])] == Amount(records[k])
    decreases |records|
  {
    if |records| > 0 {
      var front, last := records[..|records| - 1], records[|records| - 1];
      TransactionGraphWeights(front);
      var before := TransactionGraph(front);
      var g := AddEdge(before, Source(last), Destination(last), Amount(last));
      assert TransactionGraph(records) == g;
      AddEdgeEdges(before, Source(last), Destination(last), Amount(last));
      forall k | 0 <= k < |records| && IsLastOfPair(records, k)
        ensures Pair(records[k]) in g.weight && g.weight[Pair(records[k])] == Amount(records[k])
      {
        if k < |front| {
          LastOfPairInFront(records, k);
          assert records[k] == front[k];
          assert Pair(front[k]) in before.weight && before.weight[Pair(front[k])] == Amount(front[k]);
        } else {
          assert k == |records| - 1;
        }
      }
    }
  }

  /** A record that is the last of its pair is also the last of its pair before the final record. */
  lemma LastOfPairInFront(records: seq<Transaction>, k: nat)
    requires k < |records| - 1 && IsLastOfPair(records, k)
    ensures IsLastOfPair(records[..|records| - 1], k)
    ensures Pair(records[|records| - 1]) != Pair(records[k])
  {
    var front := records[..|records| - 1];
    forall m | k < m < |front|
      ensures Pair(front[m]) != Pair(front[k])
    {
      assert front[m] == records[m];
    }
  }

  /** The dataset: the three lists the parse fills in place, and the data type that decides how
      lines are read and edges are drawn. */
  class TransactionData {
    var transactions: seq<Transaction>
    var timestamps: seq<real>
    var amounts: seq<real>
    const dataType: string

    /** The lists are parallel, and every record is of the data type's kind. */
    ghost predicate Valid()
      reads this
    {
      && |timestamps| == |transactions|
      && |amounts| == |transactions|
      && (dataType != CreditCard && dataType != Insurance ==> transactions == [])
      && forall k :: 0 <= k < |transactions| ==>
           Consistent(Entry(timestamps[k], amounts[k], transactions[k]), dataType)
    }

    /** The lists start empty. */
    constructor (dataType: string)
      ensures Valid() && this.dataType == dataType
      ensures transactions == [] && timestamps == [] && amounts == []
    {
      this.dataType := dataType;
      transactions, timestamps, amounts := [], [], [];
    }

    /** Appends one parsed line's entry to the three lists. */
    method Append(entry: Entry)
      requires Valid() && Consistent(entry, dataType)
      modifies this
      ensures Valid()
      ensures transactions == old(transactions) + [entry.record]
      ensures timestamps == old(timestamps) + [entry.timestamp]
      ensures amounts == old(amounts) + [entry.amount]
    {
      transactions := transactions + [entry.record];
      timestamps := timestamps + [entry.timestamp];
      amounts := amounts + [entry.amount];
    }

    /** The parse loop with `step` reading each line: appends the entry each line yields, and
        stops at the first line that raises, returning the error. */
    method ParseLines(rawData: seq<string>, step: string -> LineResult) returns (failure: Option<ParseError>)
      requires Valid() && YieldsConsistent(step, dataType)
      modifies this
      ensures Valid()
      ensures var outcome := Outcome(StepResults(rawData, step));
              && failure == outcome.failure
              && transactions == old(transactions) + Records(outcome.entries)
              && timestamps == old(timestamps) + Timestamps(outcome.entries)
              && amounts == old(amounts) + Amounts(outcome.entries)
    {
      ghost var results := StepResults(rawData, step);
      var i := 0;
      while i < |rawData|
        invariant 0 <= i <= |rawData|
        invariant Valid()
        invariant var outcome := Outcome(results[..i]);
                  && outcome.failure.None?
                  && transactions == old(transactions) + Records(outcome.entries)
                  && timestamps == old(timestamps) + Timestamps(outcome.entries)
                  && amounts == old(amounts) + Amounts(outcome.entries)
      {
        ghost var done := Outcome(results[..i]).entries;
        var line := step(rawData[i]);
        OutcomeStep(results, i);
        match line {
          case Failure(e) =>
            OutcomeStops(results, i + 1);
            failure := Some(e);
            return;
          case Success(None) =>
          case Success(Some(entry)) =>
            SeriesExtend(old(transactions), old(timestamps), old(amounts), done, entry);
            Append(entry);
        }
        i := i + 1;
      }
      assert results[..|rawData|] == results;
      failure := None;
    }

    /** Parses `rawData` into the lists, appending one entry per non-blank line; on the first
        line that raises it stops, and the error is returned. */
    method ParseData(rawData: seq<string>, conv: Conversions) returns (failure: Option<ParseError>)
      requires Valid()
      modifies this
      ensures Valid()
      ensures var outcome := ParseAll(rawData, dataType, conv);
              && failure == outcome.failure
              && transactions == old(transactions) + Records(outcome.entries)
              && timestamps == old(timestamps) + Timestamps(outcome.entries)
              && amounts == old(amounts) + Amounts(outcome.entries)
    {
      LineParserConsistent(dataType, conv);
      failure := ParseLines(rawData, LineParser(dataType, conv));
      assert StepResults(rawData, LineParser(dataType, conv)) == LineResults(rawData, dataType, conv);
    }

    /** Building a dataset from lines: the parse either raises, and no dataset exists, or yields
        the records of every line, in order. */
    static method FromLines(rawData: seq<string>, dataType: string, conv: Conversions)
      returns (r: Result<TransactionData, ParseError>)
      ensures var outcome := ParseAll(rawData, dataType, conv);
              match r
              case Failure(e) => outcome.failure == Some(e)
              case Success(data) =>
                && outcome.failure.None? && fresh(data) && data.Valid() && data.dataType == dataType
                && data.transactions == Records(outcome.entries)
                && data.timestamps == Timestamps(outcome.entries)
                && data.amounts == Amounts(outcome.entries)
    {
      var data := new TransactionData(dataType);
      var failure := data.ParseData(rawData, conv);
      if failure.Some? {
        r := Failure(failure.value);
      } else {
        r := Success(data);
      }
    }

    /** The timestamp and amount series, parallel to the records. */
    function GetTimeSeries(): (series: (seq<real>, seq<real>))
      reads this
      requires Valid()
      ensures |series.0| == |transactions| && |series.1| == |transactions|
      ensures forall k :: 0 <= k < |series.1| ==> series.1[k] == Amount(transactions[k])
      ensures dataType == CreditCard ==>
                forall k :: 0 <= k < |series.0| ==> series.0[k] == transactions[k].timestamp
    {
      (timestamps, amounts)
    }

    /** A copy of the records; as a value, it cannot alias the dataset's own list. */
    function GetTransactions(): (records: seq<Transaction>)
      reads this
      requires Valid()
      ensures |records| == |amounts| && forall k :: 0 <= k < |records| ==> Amount(records[k]) == amounts[k]
    {
      transactions
    }

    /** The number of records, which is also the length of each series. */
    function GetTransactionCount(): (n: nat)
      reads this
      requires Valid()
      ensures n == |timestamps| && n == |amounts|
    {
      |transactions|
    }

    /** The transaction graph: for each record in order, the edge from its card (policy) to its
        merchant (claim type) weighted by its amount. */
    method BuildTransactionGraph() returns (g: Graph)
      requires Valid()
      ensures g == TransactionGraph(transactions)
      ensures WellFormed(g) && g.nodes == Dedup(Endpoints(transactions))
    {
      g := Empty;
      // `build_transaction_graph` has one loop per data type; both add the same edge per record.
      if dataType == CreditCard || dataType == Insurance {
        for i := 0 to |transactions|
          invariant g == TransactionGraph(transactions[..i])
        {
          var t := transactions[i];
          assert transactions[..i + 1][..i] == transactions[..i];
          g := AddEdge(g, Source(t), Destination(t), Amount(t));
        }
        assert transactions[..|transactions|] == transactions;
      }
      TransactionGraphNodes(transactions);
      TransactionGraphWellFormed(transactions);
    }
  }
}
