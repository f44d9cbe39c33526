/** `parse_cachegrind_output`: reading the nine counters out of the lines of
    a cachegrind report. The file is given as its sequence of lines. */
module ReportParser {
  import opened Results
  import opened Counters
  import opened Text

  /** Each way the source's parse panics. */
  datatype ParseError =
    | MissingEventsOrSummary        // no `events: ` line, or no `summary: ` line
    | InvalidCount(token: string)   // a paired summary token that is not a `u64`
    | MissingEvent(name: string)    // a counter name absent from the paired events

  const EventsPrefix: string := "events: "
  const SummaryPrefix: string := "summary: "

  predicate HasPrefix(line: string, prefix: string) {
    |prefix| <= |line| && line[..|prefix|] == prefix
  }

  function Min(a: nat, b: nat): nat {
    if a <= b then a else b
  }

  /** The index of the last line that starts with `prefix`, or -1. */
  function LastIndexWithPrefix(lines: seq<string>, prefix: string): (i: int)
    ensures -1 <= i < |lines|
    ensures i >= 0 ==> HasPrefix(lines[i], prefix)
    ensures forall j :: i < j < |lines| ==> !HasPrefix(lines[j], prefix)
  {
    if |lines| == 0 then -1
    else if HasPrefix(lines[|lines| - 1], prefix) then |lines| - 1
    else LastIndexWithPrefix(lines[..|lines| - 1], prefix)
  }

  /** The trimmed remainder of the LAST line that starts with `prefix`: the
      value the scanning loop leaves in its variable, since every match
      overwrites the previous one. */
  function LastWithPrefix(lines: seq<string>, prefix: string): (r: Option<string>)
    ensures r.None? <==> forall i :: 0 <= i < |lines| ==> !HasPrefix(lines[i], prefix)
    ensures r.Some? ==> exists i :: 0 <= i < |lines| && HasPrefix(lines[i], prefix)
                                    && r.value == Trim(lines[i][|prefix|..])
                                    && forall j :: i < j < |lines| ==> !HasPrefix(lines[j], prefix)
  {
    var i := LastIndexWithPrefix(lines, prefix);
    if i < 0 then None else Some(Trim(lines[i][|prefix|..]))
  }

  /** The scanning loop over the report's lines, keeping the last `events: `
      and the last `summary: ` line. */
  method ScanReport(lines: seq<string>) returns (events: Option<string>, summary: Option<string>)
    ensures events == LastWithPrefix(lines, EventsPrefix)
    ensures summary == LastWithPrefix(lines, SummaryPrefix)
  {
    events, summary := None, None;
    for k := 0 to |lines|
      invariant events == LastWithPrefix(lines[..k], EventsPrefix)
      invariant summary == LastWithPrefix(lines[..k], SummaryPrefix)
    {
      assert lines[..k + 1][..k] == lines[..k];
      assert lines[..k + 1][k] == lines[k];
      var line := lines[k];
      if HasPrefix(line, EventsPrefix) {
        events := Some(Trim(line[|EventsPrefix|..]));
      }
      if HasPrefix(line, SummaryPrefix) {
        summary := Some(Trim(line[|SummaryPrefix|..]));
      }
    }
    assert lines[..|lines|] == lines;
  }

  /** Position `i` holds the last of the first `n` names equal to `names[i]`. */
  predicate LastNamedAt(names: seq<string>, n: nat, i: nat)
    requires i < n <= |names|
  {
    forall j :: i < j < n ==> names[j] != names[i]
  }

  /** `zip` of the event names with the parsed summary tokens, collected into
      a map from position `i` on. `zip` stops at the shorter list and only
      parses the tokens it pairs; a later duplicate name overwrites an
      earlier one; the first unparsable paired token aborts. */
  function Collect(names: seq<string>, values: seq<string>, i: nat, acc: map<string, uint64>)
    : (r: Result<map<string, uint64>, ParseError>)
    requires i <= Min(|names|, |values|)
    ensures r.Ok? <==> forall j :: i <= j < Min(|names|, |values|) ==> ParseU64(values[j]).Some?
    ensures r.Err? ==> r.error.InvalidCount? && ParseU64(r.error.token).None?
    decreases Min(|names|, |values|) - i
  {
    if i == Min(|names|, |values|) then Ok(acc)
    else
      match ParseU64(values[i])
      case None => Err(InvalidCount(values[i]))
      case Some(v) => Collect(names, values, i + 1, acc[names[i] := v])
  }

  /** Position of the first token from `i` on, among the first `n`, that
      is not a `u64`; `n` when there is none. */
  function FirstUnparsable(values: seq<string>, i: nat, n: nat): (j: nat)
    requires i <= n <= |values|
    ensures i <= j <= n
    ensures forall k :: i <= k < j ==> ParseU64(values[k]).Some?
    ensures j < n ==> ParseU64(values[j]).None?
    decreases n - i
  {
    if i == n || ParseU64(values[i]).None? then i else FirstUnparsable(values, i + 1, n)
  }

  /** The error names the first paired token that is not a `u64`. */
  lemma {:induction false} CollectReportsFirstInvalid(names: seq<string>, values: seq<string>, i: nat, acc: map<string, uint64>)
    requires i <= Min(|names|, |values|)
    ensures var r := Collect(names, values, i, acc);
            var j := FirstUnparsable(values, i, Min(|names|, |values|));
            r.Err? <==> j < Min(|names|, |values|)
    ensures var r := Collect(names, values, i, acc);
            r.Err? ==> r.error == InvalidCount(values[FirstUnparsable(values, i, Min(|names|, |values|))])
    decreases Min(|names|, |values|) - i
  {
    var n := Min(|names|, |values|);
    if i < n {
      if ParseU64(values[i]).Some? {
        var next := CollectStepParsed(names, values, i, acc);
        CollectReportsFirstInvalid(names, values, i + 1, next);
      } else {
        CollectStepUnparsed(names, values, i, acc);
      }
    } else {
      assert Collect(names, values, i, acc) == Ok(acc);
    }
  }

  /** A parsed pair moves both the fold and the search on by one. */
  lemma CollectStepParsed(names: seq<string>, values: seq<string>, i: nat, acc: map<string, uint64>)
    returns (next: map<string, uint64>)
    requires i < Min(|names|, |values|) && ParseU64(values[i]).Some?
    ensures next == acc[names[i] := ParseU64(values[i]).value]
    ensures Collect(names, values, i, acc) == Collect(names, values, i + 1, next)
    ensures FirstUnparsable(values, i, Min(|names|, |values|)) == FirstUnparsable(values, i + 1, Min(|names|, |values|))
  {
    next := acc[names[i] := ParseU64(values[i]).value];
  }

  /** An unparsable pair stops both the fold and the search where it is. */
  lemma CollectStepUnparsed(names: seq<string>, values: seq<string>, i: nat, acc: map<string, uint64>)
    requires i < Min(|names|, |values|) && ParseU64(values[i]).None?
    ensures Collect(names, values, i, acc) == Err(InvalidCount(values[i]))
    ensures FirstUnparsable(values, i, Min(|names|, |values|)) == i
  {
  }

  /** The keys are the accumulated ones plus every paired name. */
  lemma {:induction false} CollectKeys(names: seq<string>, values: seq<string>, i: nat, acc: map<string, uint64>)
    requires i <= Min(|names|, |values|)
    ensures var r := Collect(names, values, i, acc);
            r.Ok? ==> r.value.Keys == acc.Keys + (set j | i <= j < Min(|names|, |values|) :: names[j])
    decreases Min(|names|, |values|) - i
  {
    var n := Min(|names|, |values|);
    if i < n && ParseU64(values[i]).Some? {
      var next := acc[names[i] := ParseU64(values[i]).value];
      assert Collect(names, values, i, acc) == Collect(names, values, i + 1, next);
      CollectKeys(names, values, i + 1, next);
      NamesFromCons(names, i, n);
    }
  }

  /** The names at `i` and after are the one at `i` plus those after it. */
  lemma NamesFromCons(names: seq<string>, i: nat, n: nat)
    requires i < n <= |names|
    ensures (set j | i <= j < n :: names[j]) == {names[i]} + (set j | i + 1 <= j < n :: names[j])
  {
  }

  /** An accumulated name that no later pair mentions keeps its value. */
  lemma {:induction false} CollectKeepsUnpaired(names: seq<string>, values: seq<string>, i: nat, acc: map<string, uint64>, k: string)
    requires i <= Min(|names|, |values|)
    requires k in acc && forall j :: i <= j < Min(|names|, |values|) ==> names[j] != k
    ensures var r := Collect(names, values, i, acc);
            r.Ok? ==> k in r.value && r.value[k] == acc[k]
    decreases Min(|names|, |values|) - i
  {
    if i < Min(|names|, |values|) && ParseU64(values[i]).Some? {
      CollectKeepsUnpaired(names, values, i + 1, acc[names[i] := ParseU64(values[i]).value], k);
    }
  }

  /** Each paired name ends up with the value of its LAST pairing. */
  lemma {:induction false} CollectLastWins(names: seq<string>, values: seq<string>, i: nat, acc: map<string, uint64>)
    requires i <= Min(|names|, |values|)
    ensures var r := Collect(names, values, i, acc);
            var n := Min(|names|, |values|);
            r.Ok? ==> forall j :: i <= j < n && LastNamedAt(names, n, j) ==>
                        names[j] in r.value && r.value[names[j]] == ParseU64(values[j]).value
    decreases Min(|names|, |values|) - i
  {
    var n := Min(|names|, |values|);
    var r := Collect(names, values, i, acc);
    if i < n && r.Ok? {
      var v := ParseU64(values[i]).value;
      var acc' := acc[names[i] := v];
      assert r == Collect(names, values, i + 1, acc');
      CollectLastWins(names, values, i + 1, acc');
      forall j | i <= j < n && LastNamedAt(names, n, j)
        ensures names[j] in r.value && r.value[names[j]] == ParseU64(values[j]).value
      {
        if j == i {
          CollectKeepsUnpaired(names, values, i + 1, acc', names[i]);
        } else {
          assert i + 1 <= j && LastNamedAt(names, n, j);
        }
      }
    }
  }

  /** The nine lookups `events["Ir"]` ... `events["DLmw"]`, from field `k`
      on; the first absent name aborts. */
  function LookupFrom(counts: map<string, uint64>, k: nat): (r: Result<seq<uint64>, ParseError>)
    requires k <= |EventNames|
    ensures r.Ok? <==> forall j :: k <= j < |EventNames| ==> EventNames[j] in counts
    ensures r.Ok? ==> |r.value| == |EventNames| - k
                      && forall j :: k <= j < |EventNames| ==> r.value[j - k] == counts[EventNames[j]]
    ensures r.Err? ==> r.error.MissingEvent? && r.error.name in EventNames[k..] && r.error.name !in counts
    decreases |EventNames| - k
  {
    if k == |EventNames| then Ok([])
    else if EventNames[k] !in counts then Err(MissingEvent(EventNames[k]))
    else
      match LookupFrom(counts, k + 1)
      case Err(e) =>
        assert EventNames[k + 1..] == EventNames[k..][1..];
        Err(e)
      case Ok(rest) => Ok([counts[EventNames[k]]] + rest)
  }

  /** Builds the record from the collected map by name. */
  function LookupStats(counts: map<string, uint64>): (r: Result<Stats, ParseError>)
    ensures r.Ok? <==> forall k :: 0 <= k < |EventNames| ==> EventNames[k] in counts
    ensures r.Ok? ==> forall k :: 0 <= k < |EventNames| ==> Fields(r.value)[k] == counts[EventNames[k]]
    ensures r.Err? ==> r.error.MissingEvent? && r.error.name in EventNames && r.error.name !in counts
  {
    var fs :- LookupFrom(counts, 0);
    Ok(FromFields(fs))
  }

  /** The counters named by `names`, valued by the paired `values`: a
      paired token that is not a `u64` is reported before a missing event,
      and a missing event is one no paired name mentions. */
  function ParsePairs(names: seq<string>, values: seq<string>): (r: Result<Stats, ParseError>)
    ensures r.Err? ==> !r.error.MissingEventsOrSummary?
    ensures r.Err? && r.error.InvalidCount? ==> ParseU64(r.error.token).None?
    ensures (r.Ok? || r.error.MissingEvent?) <==>
              forall j :: 0 <= j < Min(|names|, |values|) ==> ParseU64(values[j]).Some?
    ensures r.Err? && r.error.MissingEvent? ==>
              && r.error.name in EventNames
              && forall j :: 0 <= j < Min(|names|, |values|) ==> names[j] != r.error.name
  {
    var counts :- Collect(names, values, 0, map[]);
    CollectKeys(names, values, 0, map[]);
    assert forall j :: 0 <= j < Min(|names|, |values|) ==> names[j] in counts.Keys;
    LookupStats(counts)
  }

  /** `parse_cachegrind_output` over the lines of the report. */
  function ParseReport(lines: seq<string>): (r: Result<Stats, ParseError>)
    ensures r == Err(MissingEventsOrSummary) <==>
              (forall i :: 0 <= i < |lines| ==> !HasPrefix(lines[i], EventsPrefix))
              || (forall i :: 0 <= i < |lines| ==> !HasPrefix(lines[i], SummaryPrefix))
  {
    match (LastWithPrefix(lines, EventsPrefix), LastWithPrefix(lines, SummaryPrefix))
    case (Some(events), Some(summary)) =>
      ParsePairs(SplitWhitespace(events), SplitWhitespace(summary))
    case _ => Err(MissingEventsOrSummary)
  }

  // ---------------------------------------------------------------------------
  // What a parse yields

  /** The pairing succeeds exactly when every paired summary token is a
      `u64` and all nine counter names are among the paired event names. */
  lemma ParsePairsSucceedsIff(names: seq<string>, values: seq<string>)
    ensures var n := Min(|names|, |values|);
            ParsePairs(names, values).Ok? <==>
              && (forall j :: 0 <= j < n ==> ParseU64(values[j]).Some?)
              && (forall k :: 0 <= k < |EventNames| ==> exists j :: 0 <= j < n && names[j] == EventNames[k])
  {
    var n := Min(|names|, |values|);
    var c := Collect(names, values, 0, map[]);
    CollectKeys(names, values, 0, map[]);
    if c.Ok? {
      var keys := c.value.Keys;
      assert keys == set j | 0 <= j < n :: names[j];
      forall k | 0 <= k < |EventNames|
        ensures EventNames[k] in keys <==> exists j :: 0 <= j < n && names[j] == EventNames[k]
      {
      }
    }
  }

  /** On success each counter holds the value paired with the LAST
      occurrence of its name. */
  lemma ParsePairsTakesLastPair(names: seq<string>, values: seq<string>)
    requires ParsePairs(names, values).Ok?
    ensures var n := Min(|names|, |values|);
            forall k, j :: 0 <= k < |EventNames| && 0 <= j < n && names[j] == EventNames[k]
                           && LastNamedAt(names, n, j) ==>
              Fields(ParsePairs(names, values).value)[k] == ParseU64(values[j]).value
  {
    CollectLastWins(names, values, 0, map[]);
  }

  /** Once both header lines are found, the report parses exactly as their
      whitespace-split tokens pair up. */
  lemma ParseReportUsesLastLines(lines: seq<string>)
    ensures var events, summary := LastWithPrefix(lines, EventsPrefix), LastWithPrefix(lines, SummaryPrefix);
            events.Some? && summary.Some? ==>
              ParseReport(lines) == ParsePairs(SplitWhitespace(events.value), SplitWhitespace(summary.value))
  {
  }

  /** A report with no `summary: ` line (or no `events: ` line) is rejected. */
  lemma ParseReportNeedsBothLines(lines: seq<string>)
    requires (forall i :: 0 <= i < |lines| ==> !HasPrefix(lines[i], SummaryPrefix))
             || (forall i :: 0 <= i < |lines| ==> !HasPrefix(lines[i], EventsPrefix))
    ensures ParseReport(lines) == Err(MissingEventsOrSummary)
  {
  }

  // ---------------------------------------------------------------------------
  // Round trip

  /** An order in which a report may list the nine counters: a permutation
      of the field indices. */
  predicate IsFieldOrder(order: seq<nat>) {
    && |order| == |EventNames|
    && (forall i :: 0 <= i < |order| ==> order[i] < |EventNames|)
    && (forall i, j :: 0 <= i < j < |order| ==> order[i] != order[j])
    && (forall k :: 0 <= k < |EventNames| ==> k in order)
  }

  function OrderedNames(order: seq<nat>): (names: seq<string>)
    requires IsFieldOrder(order)
    ensures |names| == |order|
  {
    seq(|order|, i requires 0 <= i < |order| => EventNames[order[i]])
  }

  function OrderedValues(s: Stats, order: seq<nat>): (values: seq<string>)
    requires IsFieldOrder(order)
    ensures |values| == |order|
  {
    seq(|order|, i requires 0 <= i < |order| => NatToDecimal(Fields(s)[order[i]]))
  }

  /** A line that is neither an `events: ` nor a `summary: ` line, such as
      cachegrind's per-function `fl=`, `fn=` and count lines. */
  predicate NoHeader(line: string) {
    !HasPrefix(line, EventsPrefix) && !HasPrefix(line, SummaryPrefix)
  }

  /** The report cachegrind writes for `s` from its `events: ` line on: the
      counters listed in `order`, then the per-function `body`, then the
      `summary: ` line. */
  function RenderReport(s: Stats, order: seq<nat>, body: seq<string>): seq<string>
    requires IsFieldOrder(order)
  {
    [EventsPrefix + JoinSpace(OrderedNames(order))] + body + [SummaryPrefix + JoinSpace(OrderedValues(s, order))]
  }

  /** Lines without the prefix appended after the others do not move the
      last line that has it. */
  lemma {:induction false} LastIndexSkips(lines: seq<string>, rest: seq<string>, prefix: string)
    requires forall i :: 0 <= i < |rest| ==> !HasPrefix(rest[i], prefix)
    ensures LastIndexWithPrefix(lines + rest, prefix) == LastIndexWithPrefix(lines, prefix)
    decreases |rest|
  {
    if |rest| > 0 {
      var all := lines + rest;
      var init := rest[..|rest| - 1];
      assert all[|all| - 1] == rest[|rest| - 1];
      assert all[..|all| - 1] == lines + init;
      LastIndexSkips(lines, init, prefix);
    } else {
      assert lines + rest == lines;
    }
  }

  lemma EventNamesAreTokens()
    ensures forall k :: 0 <= k < |EventNames| ==> IsToken(EventNames[k])
  {
  }

  lemma HeaderLinePrefixes(x: string)
    ensures HasPrefix(EventsPrefix + x, EventsPrefix)
    ensures HasPrefix(SummaryPrefix + x, SummaryPrefix)
    ensures !HasPrefix(SummaryPrefix + x, EventsPrefix)
    ensures (EventsPrefix + x)[|EventsPrefix|..] == x
    ensures (SummaryPrefix + x)[|SummaryPrefix|..] == x
  {
    assert (SummaryPrefix + x)[0] == 's';
  }

  /** The rendered report's last two lines are the ones the parser keeps. */
  lemma RenderedLinesAreLast(header: seq<string>, s: Stats, order: seq<nat>, body: seq<string>)
    requires IsFieldOrder(order)
    requires forall i :: 0 <= i < |body| ==> NoHeader(body[i])
    ensures LastWithPrefix(header + RenderReport(s, order, body), EventsPrefix)
            == Some(Trim(JoinSpace(OrderedNames(order))))
    ensures LastWithPrefix(header + RenderReport(s, order, body), SummaryPrefix)
            == Some(Trim(JoinSpace(OrderedValues(s, order))))
  {
    var x, y := JoinSpace(OrderedNames(order)), JoinSpace(OrderedValues(s, order));
    var e, m := EventsPrefix + x, SummaryPrefix + y;
    HeaderLinePrefixes(x);
    HeaderLinePrefixes(y);
    var front, rest := header + [e], body + [m];
    var lines := front + rest;
    assert lines == header + RenderReport(s, order, body);
    assert rest[|rest| - 1] == m;
    assert forall i :: 0 <= i < |rest| ==> !HasPrefix(rest[i], EventsPrefix) by {
      forall i | 0 <= i < |rest|
        ensures !HasPrefix(rest[i], EventsPrefix)
      {
        if i < |body| { assert rest[i] == body[i]; }
      }
    }
    LastIndexSkips(front, rest, EventsPrefix);
    assert front[|front| - 1] == e;
    assert LastIndexWithPrefix(lines, EventsPrefix) == |header|;
    assert lines[|header|] == e;
    assert lines[|lines| - 1] == m;
    assert LastIndexWithPrefix(lines, SummaryPrefix) == |lines| - 1;
  }

  lemma OrderedValuesParse(s: Stats, order: seq<nat>)
    requires IsFieldOrder(order)
    ensures forall j :: 0 <= j < |order| ==> ParseU64(OrderedValues(s, order)[j]) == Some(Fields(s)[order[j]])
  {
    forall j | 0 <= j < |order|
      ensures ParseU64(OrderedValues(s, order)[j]) == Some(Fields(s)[order[j]])
    {
      ParseU64RoundTrip(Fields(s)[order[j]]);
    }
  }

  lemma OrderedNamesDistinct(order: seq<nat>)
    requires IsFieldOrder(order)
    ensures forall j :: 0 <= j < |order| ==> LastNamedAt(OrderedNames(order), |order|, j)
  {
    var names := OrderedNames(order);
    EventNamesDistinct();
    forall j, j' | 0 <= j < j' < |order|
      ensures names[j'] != names[j]
    {
      assert names[j] == EventNames[order[j]] && names[j'] == EventNames[order[j']];
    }
  }

  /** With distinct names and parsable values, each name maps to its own value. */
  lemma CollectDistinct(names: seq<string>, values: seq<string>)
    requires |names| == |values|
    requires forall j :: 0 <= j < |names| ==> LastNamedAt(names, |names|, j)
    requires forall j :: 0 <= j < |values| ==> ParseU64(values[j]).Some?
    ensures var c := Collect(names, values, 0, map[]);
            c.Ok? && forall j :: 0 <= j < |names| ==> names[j] in c.value && c.value[names[j]] == ParseU64(values[j]).value
  {
    CollectLastWins(names, values, 0, map[]);
  }

  /** Collecting the rendered pairs maps each name to its field's value. */
  lemma CollectRendered(s: Stats, order: seq<nat>)
    requires IsFieldOrder(order)
    ensures var c := Collect(OrderedNames(order), OrderedValues(s, order), 0, map[]);
            c.Ok? && forall k :: 0 <= k < |EventNames| ==> EventNames[k] in c.value && c.value[EventNames[k]] == Fields(s)[k]
  {
    var names, values := OrderedNames(order), OrderedValues(s, order);
    OrderedValuesParse(s, order);
    OrderedNamesDistinct(order);
    CollectDistinct(names, values);
    var counts := Collect(names, values, 0, map[]).value;
    forall k | 0 <= k < |EventNames|
      ensures EventNames[k] in counts && counts[EventNames[k]] == Fields(s)[k]
    {
      assert k in order;
      var j :| 0 <= j < |order| && order[j] == k;
      assert names[j] == EventNames[k];
      assert names[j] in counts && counts[names[j]] == ParseU64(values[j]).value;
      assert ParseU64(values[j]) == Some(Fields(s)[k]);
    }
  }

  /** Pairing the counter names, in any order, with the decimal renderings
      of their values gives the record back. */
  lemma ParsePairsRoundTrip(s: Stats, order: seq<nat>)
    requires IsFieldOrder(order)
    ensures ParsePairs(OrderedNames(order), OrderedValues(s, order)) == Ok(s)
  {
    CollectRendered(s, order);
    var c := Collect(OrderedNames(order), OrderedValues(s, order), 0, map[]);
    var r := LookupStats(c.value);
    FieldsInjective(r.value, s);
  }

  /** The rendered names split back into the names. */
  lemma RenderedNamesSplit(order: seq<nat>)
    requires IsFieldOrder(order)
    ensures SplitWhitespace(Trim(JoinSpace(OrderedNames(order)))) == OrderedNames(order)
  {
    var names := OrderedNames(order);
    EventNamesAreTokens();
    SplitWhitespaceIgnoresTrim(JoinSpace(names));
    SplitJoinSpace(names);
  }

  /** The rendered values split back into the values. */
  lemma RenderedValuesSplit(s: Stats, order: seq<nat>)
    requires IsFieldOrder(order)
    ensures SplitWhitespace(Trim(JoinSpace(OrderedValues(s, order)))) == OrderedValues(s, order)
  {
    var values := OrderedValues(s, order);
    forall i | 0 <= i < |values|
      ensures IsToken(values[i])
    {
      var ds := values[i];
      assert forall c :: 0 <= c < |ds| ==> IsDigit(ds[c]);
    }
    SplitWhitespaceIgnoresTrim(JoinSpace(values));
    SplitJoinSpace(values);
  }

  /** Writing a record as a cachegrind report, in any counter order, after
      any other lines and with any per-function lines between the two header
      lines, and parsing the result gives the record back. */
  lemma ParseReportRoundTrip(header: seq<string>, s: Stats, order: seq<nat>, body: seq<string>)
    requires IsFieldOrder(order)
    requires forall i :: 0 <= i < |body| ==> NoHeader(body[i])
    ensures ParseReport(header + RenderReport(s, order, body)) == Ok(s)
  {
    var lines := header + RenderReport(s, order, body);
    RenderedLinesAreLast(header, s, order, body);
    ParseReportUsesLastLines(lines);
    RenderedNamesSplit(order);
    RenderedValuesSplit(s, order);
    ParsePairsRoundTrip(s, order);
  }

  /** The order in which a report lists its counters does not matter. */
  lemma ParseReportIgnoresOrder(header: seq<string>, s: Stats, order: seq<nat>, order': seq<nat>,
                                body: seq<string>)
    requires IsFieldOrder(order) && IsFieldOrder(order')
    requires forall i :: 0 <= i < |body| ==> NoHeader(body[i])
    ensures ParseReport(header + RenderReport(s, order, body)) == ParseReport(header + RenderReport(s, order', body))
  {
    ParseReportRoundTrip(header, s, order, body);
    ParseReportRoundTrip(header, s, order', body);
  }
}
