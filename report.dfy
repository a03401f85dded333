/** `format_report` (main.py, lines 107-117): the plain-text report, one line per
    version, under a line with the time and a line with the number of homeservers. */
module Report {
  import opened Wrappers
  import opened Text
  import opened Dict

  /** `f'{count:<4} {version}\n'`. */
  function Line(version: string, count: nat): string
  {
    LeftAlign(Decimal(count), 4) + " " + version + "\n"
  }

  /** The entry lines, in table order. */
  function Body(versions: seq<(string, nat)>): string
  {
    if versions == [] then [] else Line(versions[0].0, versions[0].1) + Body(versions[1..])
  }

  const OnlineSuffix: string := " homeservers online\n\n"

  /** The time stamp line and the total line. */
  function Heading(now: string, total: nat): string
  {
    now + "\n" + Decimal(total) + OnlineSuffix
  }

  /** The whole report for a table, given the time stamp `now` the script reads from
      the clock. */
  function Report(versions: seq<(string, nat)>, now: string): string
  {
    Heading(now, Total(versions)) + Body(versions)
  }

  lemma {:induction false} BodySnoc(versions: seq<(string, nat)>, e: (string, nat))
    ensures Body(versions + [e]) == Body(versions) + Line(e.0, e.1)
  {
    if versions == [] {
      assert [e][1..] == [];
    } else {
      assert (versions + [e])[1..] == versions[1..] + [e];
      BodySnoc(versions[1..], e);
    }
  }

  /** One more entry adds its line at the end of the report. */
  lemma ReportStep(versions: seq<(string, nat)>, i: nat, heading: string)
    requires i < |versions|
    ensures heading + Body(versions[..i + 1])
         == heading + Body(versions[..i]) + Line(versions[i].0, versions[i].1)
  {
    assert versions[..i + 1] == versions[..i] + [versions[i]];
    BodySnoc(versions[..i], versions[i]);
  }

  /** `format_report(versions)`: sum the counts, then write the heading and one line
      per entry. */
  method FormatReport(versions: seq<(string, nat)>, now: string) returns (report: string)
    ensures report == Report(versions, now)
  {
    report := "";
    var total := 0;
    var i := 0;
    while i < |versions|
      invariant i <= |versions|
      invariant total == Total(versions[..i])
    {
      TotalStep(versions, i);
      total := total + versions[i].1;
      i := i + 1;
    }
    assert versions[..i] == versions;

    report := report + now + "\n";
    report := report + Decimal(total) + OnlineSuffix;
    assert report == Heading(now, total) + Body(versions[..0]);
    i := 0;
    while i < |versions|
      invariant i <= |versions|
      invariant report == Heading(now, total) + Body(versions[..i])
    {
      ReportStep(versions, i, Heading(now, total));
      report := report + Line(versions[i].0, versions[i].1);
      i := i + 1;
    }
    assert versions[..i] == versions;
  }

  // ---------------------------------------------------------------------------
  // Reading a report back

  /** One entry line at the start of `s`: the version, the count and the length of
      the line. */
  function ParseLine(s: string): (r: Option<(string, nat, nat)>)
    ensures r.Some? ==> 0 < r.value.2 <= |s|
  {
    var d := SkipDigits(s, 0);
    var p := d + (if d < 4 then 4 - d else 0) + 1;
    if d == 0 || |s| < p || s[d..p] != Spaces(p - d) then None
    else
      var e := Find(s, '\n', p);
      if e == |s| then None
      else Some((s[p..e], ParseDecimal(s[..d]), e + 1))
  }

  function ParseBody(s: string): Option<seq<(string, nat)>>
    decreases |s|
  {
    if s == [] then Some([])
    else
      match ParseLine(s)
      case None => None
      case Some((version, count, k)) =>
        match ParseBody(s[k..])
        case None => None
        case Some(rest) => Some([(version, count)] + rest)
  }

  /** The total line and the entry lines. */
  function ParseTotal(rest: string): Option<(nat, seq<(string, nat)>)>
  {
    var d := SkipDigits(rest, 0);
    var b := d + |OnlineSuffix|;
    if d == 0 || |rest| < b || rest[d..b] != OnlineSuffix then None
    else
      match ParseBody(rest[b..])
      case None => None
      case Some(versions) => Some((ParseDecimal(rest[..d]), versions))
  }

  /** The time stamp, the total and the table of a report. */
  function ParseReport(s: string): Option<(string, nat, seq<(string, nat)>)>
  {
    var a := Find(s, '\n', 0);
    if a == |s| then None
    else
      match ParseTotal(s[a + 1..])
      case None => None
      case Some((total, versions)) => Some((s[..a], total, versions))
  }

  /** A run of digits followed by a non-digit is exactly what `SkipDigits` finds. */
  lemma SkipDigitsOf(s: string, k: nat)
    requires k < |s| && !IsDigit(s[k])
    requires forall i :: 0 <= i < k ==> IsDigit(s[i])
    ensures SkipDigits(s, 0) == k
  {
  }

  /** The first line break after a text without one. */
  lemma FindAfter(s: string, i: nat, k: nat)
    requires i <= k < |s| && s[k] == '\n'
    requires forall j :: i <= j < k ==> s[j] != '\n'
    ensures Find(s, '\n', i) == k
  {
  }

  /** A digit string, padded to four characters and followed by the separating space. */
  lemma PaddedDigits(digits: string, tail: string)
    requires digits != [] && forall j :: 0 <= j < |digits| ==> IsDigit(digits[j])
    ensures var s := LeftAlign(digits, 4) + " " + tail;
      var d := |digits|;
      var p := d + (if d < 4 then 4 - d else 0) + 1;
      && SkipDigits(s, 0) == d
      && p <= |s| && s[d..p] == Spaces(p - d)
      && s[p..] == tail
      && s[..d] == digits
  {
    var padded := LeftAlign(digits, 4);
    var s := padded + " " + tail;
    var d := |digits|;
    var p := |padded| + 1;
    assert s[..d] == padded[..d];
    forall j | d <= j < p ensures s[j] == ' ' {
      if j < |padded| { assert s[j] == padded[j]; }
    }
    SkipDigitsOf(s, d);
    assert s[d..p] == Spaces(p - d);
  }

  /** The count, padded to four characters and followed by the separating space. */
  lemma PaddedCount(count: nat, tail: string)
    ensures var s := LeftAlign(Decimal(count), 4) + " " + tail;
      var d := |Decimal(count)|;
      var p := d + (if d < 4 then 4 - d else 0) + 1;
      && d != 0 && SkipDigits(s, 0) == d
      && p <= |s| && s[d..p] == Spaces(p - d)
      && s[p..] == tail
      && ParseDecimal(s[..d]) == count
  {
    PaddedDigits(Decimal(count), tail);
    DecimalRoundTrip(count);
  }

  /** `ParseLine` once the digits, the padding and the line break are located. */
  lemma ParseLineAt(s: string, d: nat, p: nat, e: nat)
    requires d != 0 && SkipDigits(s, 0) == d
    requires p == d + (if d < 4 then 4 - d else 0) + 1 <= |s|
    requires s[d..p] == Spaces(p - d)
    requires Find(s, '\n', p) == e < |s|
    ensures ParseLine(s) == Some((s[p..e], ParseDecimal(s[..d]), e + 1))
  {
  }

  /** A version followed by a line break: `Find` stops right after the version. */
  lemma LineBreakAt(s: string, p: nat, version: string, rest: string)
    requires p <= |s| && s[p..] == version + "\n" + rest
    requires '\n' !in version
    ensures p + |version| < |s|
    ensures Find(s, '\n', p) == p + |version|
    ensures s[p..p + |version|] == version
  {
    var tail := s[p..];
    var e := p + |version|;
    forall j | p <= j < e ensures s[j] != '\n' {
      assert s[j] == tail[j - p] == version[j - p];
    }
    assert s[e] == tail[|version|];
    FindAfter(s, p, e);
    assert s[p..e] == tail[..|version|];
  }

  /** Where the pieces of an entry line sit. */
  lemma LineFacts(version: string, count: nat, rest: string)
    requires '\n' !in version
    ensures var s := Line(version, count) + rest;
      var d := |Decimal(count)|;
      var p := d + (if d < 4 then 4 - d else 0) + 1;
      && d != 0 && SkipDigits(s, 0) == d
      && p <= |s| && s[d..p] == Spaces(p - d)
      && Find(s, '\n', p) == p + |version| < |s|
      && s[p..p + |version|] == version
      && ParseDecimal(s[..d]) == count
      && p + |version| + 1 == |Line(version, count)|
  {
    var tail := version + "\n" + rest;
    var s := LeftAlign(Decimal(count), 4) + " " + tail;
    assert Line(version, count) + rest == s;
    PaddedCount(count, tail);
    var p := |s| - |tail|;
    LineBreakAt(s, p, version, rest);
  }

  lemma ParseLineOf(version: string, count: nat, rest: string)
    requires '\n' !in version
    ensures ParseLine(Line(version, count) + rest)
         == Some((version, count, |Line(version, count)|))
  {
    LineFacts(version, count, rest);
    var d := |Decimal(count)|;
    var p := d + (if d < 4 then 4 - d else 0) + 1;
    ParseLineAt(Line(version, count) + rest, d, p, p + |version|);
  }

  lemma {:induction false} ParseBodyOf(versions: seq<(string, nat)>)
    requires forall i :: 0 <= i < |versions| ==> '\n' !in versions[i].0
    ensures ParseBody(Body(versions)) == Some(versions)
  {
    if versions != [] {
      var e, rest := versions[0], versions[1..];
      var line := Line(e.0, e.1);
      ParseLineOf(e.0, e.1, Body(rest));
      assert Body(versions) == line + Body(rest);
      assert (line + Body(rest))[|line|..] == Body(rest);
      ParseBodyOf(rest);
      assert [e] + rest == versions;
    }
  }

  /** The part of the report after the time stamp line. */
  lemma HeadingTail(total: nat, body: string)
    ensures var rest := Decimal(total) + OnlineSuffix + body;
      var d := |Decimal(total)|;
      && d != 0 && SkipDigits(rest, 0) == d
      && d + |OnlineSuffix| <= |rest|
      && rest[d..d + |OnlineSuffix|] == OnlineSuffix
      && rest[d + |OnlineSuffix|..] == body
      && ParseDecimal(rest[..d]) == total
  {
    var digits := Decimal(total);
    var rest := digits + OnlineSuffix + body;
    assert rest[|digits|] == ' ';
    SkipDigitsOf(rest, |digits|);
    assert rest[..|digits|] == digits;
    DecimalRoundTrip(total);
  }

  lemma ParseTotalOf(total: nat, body: string)
    ensures ParseTotal(Decimal(total) + OnlineSuffix + body)
         == if ParseBody(body).Some? then Some((total, ParseBody(body).value)) else None
  {
    HeadingTail(total, body);
  }

  lemma ParseReportOf(now: string, rest: string)
    requires '\n' !in now
    ensures ParseReport(now + "\n" + rest)
         == if ParseTotal(rest).Some? then Some((now, ParseTotal(rest).value.0, ParseTotal(rest).value.1)) else None
  {
    var s := now + "\n" + rest;
    assert s[..|now|] == now;
    FindAfter(s, 0, |now|);
    assert s[|now| + 1..] == rest;
  }

  /** The report is the time stamp line followed by the rest of the heading and the body. */
  lemma ReportShape(now: string, total: nat, body: string)
    ensures Heading(now, total) + body == now + "\n" + (Decimal(total) + OnlineSuffix + body)
  {
  }

  /** The report states its time stamp, the total of the counts and every entry in
      table order, and these read back unchanged when neither the time stamp nor any
      version contains a line break. */
  lemma ReportRoundTrip(versions: seq<(string, nat)>, now: string)
    requires '\n' !in now
    requires forall i :: 0 <= i < |versions| ==> '\n' !in versions[i].0
    ensures ParseReport(Report(versions, now)) == Some((now, Total(versions), versions))
  {
    var total, body := Total(versions), Body(versions);
    var rest := Decimal(total) + OnlineSuffix + body;
    ReportShape(now, total, body);
    ParseBodyOf(versions);
    ParseTotalOf(total, body);
    ParseReportOf(now, rest);
  }
}
