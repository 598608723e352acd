/** The constraint validator: content constraints (length, keywords,
    sentences), the line-based list and table checks, dispatch on the format
    type, and the format instructions appended to prompts.

    JSON and XML parsing are oracles: the model only sees whether the text
    parses and, for JSON, which keys a parsed object has. */
module Constraints {
  import opened Text
  import opened Wrappers
  import opened Numeric
  import opened Selection
  import opened Repr

  // ---------------------------------------------------------------------
  // Content constraints
  // ---------------------------------------------------------------------

  /** The `constraints` dict: each key may be absent. */
  datatype ContentConstraints = ContentConstraints(
    maxLength: Option<int>,
    minLength: Option<int>,
    requiredKeywords: Option<seq<string>>,
    forbiddenWords: Option<seq<string>>,
    maxSentences: Option<int>)

  /** One entry of `violations`; `Message` gives its text. */
  datatype ContentViolation =
    | TooLong(length: nat, limit: int)
    | TooShort(length: nat, limit: int)
    | MissingKeywords(keywords: seq<string>)
    | ForbiddenFound(words: seq<string>)
    | TooManySentences(count: nat, limit: int)
  {
    function Message(): string {
      match this
      case TooLong(n, m) => "Text too long: " + NatToString(n) + " > " + IntToString(m)
      case TooShort(n, m) => "Text too short: " + NatToString(n) + " < " + IntToString(m)
      case MissingKeywords(ks) => "Missing required keywords: " + ListRepr(ks)
      case ForbiddenFound(ws) => "Contains forbidden words: " + ListRepr(ws)
      case TooManySentences(n, m) => "Too many sentences: " + NatToString(n) + " > " + IntToString(m)
    }
  }

  /** The keywords whose lowered form is not in the lowered text, in order. */
  function MissingFrom(keywords: seq<string>, text: string): (r: seq<string>)
    ensures |r| <= |keywords|
    ensures forall k :: k in r <==> k in keywords && !Contains(Lower(text), Lower(k))
  {
    if |keywords| == 0 then []
    else (if Contains(Lower(text), Lower(keywords[0])) then [] else [keywords[0]]) + MissingFrom(keywords[1..], text)
  }

  /** The test of the required-keywords comprehension. */
  function AbsentFrom(text: string): string -> bool {
    (k: string) => !Contains(Lower(text), Lower(k))
  }

  /** The test of the forbidden-words comprehension. */
  function PresentIn(text: string): string -> bool {
    (w: string) => Contains(Lower(text), Lower(w))
  }

  /** The missing keywords are listed once per keyword entry that is
      missing, duplicates included, in keyword order. */
  lemma {:induction false} MissingInOrder(keywords: seq<string>, text: string)
    ensures SelectsInOrder(MissingFrom(keywords, text), keywords, AbsentFrom(text), Identity())
  {
    if |keywords| > 0 {
      MissingInOrder(keywords[1..], text);
      SelectsCons(MissingFrom(keywords[1..], text), keywords, AbsentFrom(text), Identity());
    }
  }

  /** The found words are listed once per word entry that is found,
      duplicates included, in list order. */
  lemma {:induction false} FoundInOrder(words: seq<string>, text: string)
    ensures SelectsInOrder(FoundIn(words, text), words, PresentIn(text), Identity())
  {
    if |words| > 0 {
      FoundInOrder(words[1..], text);
      SelectsCons(FoundIn(words[1..], text), words, PresentIn(text), Identity());
    }
  }

  /** A missing keyword with an apostrophe is quoted the way Python's
      `str` of the list quotes it, in double quotes. */
  lemma ApostropheKeywordMessage()
    ensures MissingKeywords(["don't"]).Message() == "Missing required keywords: " + ("[" + "\"" + "don't" + "\"" + "]")
  {
    MissingMessage(["don't"]);
    ApostropheListRepr();
  }

  lemma MissingMessage(ks: seq<string>)
    ensures MissingKeywords(ks).Message() == "Missing required keywords: " + ListRepr(ks)
  {
  }

  /** The words whose lowered form is in the lowered text, in order. */
  function FoundIn(words: seq<string>, text: string): (r: seq<string>)
    ensures |r| <= |words|
    ensures forall w :: w in r <==> w in words && Contains(Lower(text), Lower(w))
  {
    if |words| == 0 then []
    else (if Contains(Lower(text), Lower(words[0])) then [words[0]] else []) + FoundIn(words[1..], text)
  }

  /** The pieces of `pieces` that are not all whitespace. */
  function NonBlank(pieces: seq<string>): (r: seq<string>)
    ensures |r| <= |pieces|
    ensures forall p :: p in r <==> p in pieces && |Strip(p)| > 0
  {
    if |pieces| == 0 then []
    else (if |Strip(pieces[0])| > 0 then [pieces[0]] else []) + NonBlank(pieces[1..])
  }

  /** `len([s for s in text.split('.') if s.strip()])`. */
  function PeriodSentenceCount(text: string): nat {
    |NonBlank(Split(text, '.'))|
  }

  /** The five checks of `validate_content_constraints`, numbered in the
      order they run. */
  const CheckCount: nat := 5

  /** Whether the text breaks check `kind`. */
  predicate Breaks(text: string, c: ContentConstraints, kind: nat) {
    match kind
    case 0 => c.maxLength.Some? && |text| > c.maxLength.value
    case 1 => c.minLength.Some? && |text| < c.minLength.value
    case 2 => c.requiredKeywords.Some? && exists k :: k in c.requiredKeywords.value && !Contains(Lower(text), Lower(k))
    case 3 => c.forbiddenWords.Some? && exists w :: w in c.forbiddenWords.value && Contains(Lower(text), Lower(w))
    case 4 => c.maxSentences.Some? && PeriodSentenceCount(text) > c.maxSentences.value
    case _ => false
  }

  function Kind(v: ContentViolation): nat {
    match v
    case TooLong(_, _) => 0
    case TooShort(_, _) => 1
    case MissingKeywords(_) => 2
    case ForbiddenFound(_) => 3
    case TooManySentences(_, _) => 4
  }

  function KeywordCheck(text: string, keywords: seq<string>): (vs: seq<ContentViolation>)
    ensures |vs| <= 1 && forall v :: v in vs ==> v == MissingKeywords(MissingFrom(keywords, text))
    ensures |vs| == 1 <==> exists k :: k in keywords && !Contains(Lower(text), Lower(k))
  {
    var missing := MissingFrom(keywords, text);
    assert |missing| > 0 ==> missing[0] in missing;
    if |missing| > 0 then [MissingKeywords(missing)] else []
  }

  function ForbiddenCheck(text: string, words: seq<string>): (vs: seq<ContentViolation>)
    ensures |vs| <= 1 && forall v :: v in vs ==> v == ForbiddenFound(FoundIn(words, text))
    ensures |vs| == 1 <==> exists w :: w in words && Contains(Lower(text), Lower(w))
  {
    var found := FoundIn(words, text);
    assert |found| > 0 ==> found[0] in found;
    if |found| > 0 then [ForbiddenFound(found)] else []
  }

  /** The violation check `kind` reports: none, or one of its own kind. */
  function RunCheck(text: string, c: ContentConstraints, kind: nat): (vs: seq<ContentViolation>)
    requires kind < CheckCount
    ensures |vs| <= 1 && forall v :: v in vs ==> Kind(v) == kind
    ensures |vs| == 1 <==> Breaks(text, c, kind)
  {
    var n := |text|;
    match kind
    case 0 => if c.maxLength.Some? && n > c.maxLength.value then [TooLong(n, c.maxLength.value)] else []
    case 1 => if c.minLength.Some? && n < c.minLength.value then [TooShort(n, c.minLength.value)] else []
    case 2 => if c.requiredKeywords.Some? then KeywordCheck(text, c.requiredKeywords.value) else []
    case 3 => if c.forbiddenWords.Some? then ForbiddenCheck(text, c.forbiddenWords.value) else []
    case 4 =>
      var count := PeriodSentenceCount(text);
      if c.maxSentences.Some? && count > c.maxSentences.value then [TooManySentences(count, c.maxSentences.value)] else []
  }

  /** `validate_content_constraints`: the violations, in the order the checks
      run. */
  function ContentViolations(text: string, c: ContentConstraints): (vs: seq<ContentViolation>)
    ensures |vs| <= CheckCount
    ensures forall i, j :: 0 <= i < j < |vs| ==> Kind(vs[i]) < Kind(vs[j])
  {
    var r0, r1, r2, r3, r4 := RunCheck(text, c, 0), RunCheck(text, c, 1), RunCheck(text, c, 2), RunCheck(text, c, 3), RunCheck(text, c, 4);
    KindsAscend(r0, r1, 0, 1);
    KindsAscend(r0 + r1, r2, 1, 2);
    KindsAscend(r0 + r1 + r2, r3, 2, 3);
    KindsAscend(r0 + r1 + r2 + r3, r4, 3, 4);
    r0 + r1 + r2 + r3 + r4
  }

  /** Appending the report of a later check keeps the kinds ascending. */
  lemma KindsAscend(a: seq<ContentViolation>, b: seq<ContentViolation>, ka: nat, kb: nat)
    requires ka < kb && |b| <= 1 && forall v :: v in b ==> Kind(v) == kb
    requires forall v :: v in a ==> Kind(v) <= ka
    requires forall i, j :: 0 <= i < j < |a| ==> Kind(a[i]) < Kind(a[j])
    ensures forall v :: v in a + b ==> Kind(v) <= kb
    ensures forall i, j :: 0 <= i < j < |a + b| ==> Kind((a + b)[i]) < Kind((a + b)[j])
  {
    forall i, j | 0 <= i < j < |a + b| ensures Kind((a + b)[i]) < Kind((a + b)[j]) {
      if j >= |a| {
        assert (a + b)[j] in b;
        assert (a + b)[i] in a;
      }
    }
  }

  datatype ContentReport = ContentReport(isValid: bool, violations: seq<string>)

  /** `validate_content_constraints`: one message per violated check, in
      the order the checks run, and valid exactly when there is none. */
  function ValidateContentConstraints(text: string, c: ContentConstraints): (r: ContentReport)
    ensures r.isValid <==> |r.violations| == 0
    ensures |r.violations| == |ContentViolations(text, c)|
    ensures forall i :: 0 <= i < |r.violations| ==> r.violations[i] == ContentViolations(text, c)[i].Message()
  {
    var vs := ContentViolations(text, c);
    ContentReport(|vs| == 0, seq(|vs|, i requires 0 <= i < |vs| => vs[i].Message()))
  }

  /** A violation of each kind is reported exactly when the text breaks that
      check. */
  lemma ViolationKinds(text: string, c: ContentConstraints, kind: nat)
    requires kind < CheckCount
    ensures (exists v :: v in ContentViolations(text, c) && Kind(v) == kind) <==> Breaks(text, c, kind)
  {
    var parts := seq(CheckCount, j requires 0 <= j < CheckCount => RunCheck(text, c, j));
    var vs := ContentViolations(text, c);
    assert vs == parts[0] + parts[1] + parts[2] + parts[3] + parts[4];
    assert forall v :: v in vs <==> exists j :: 0 <= j < CheckCount && v in parts[j];
    if Breaks(text, c, kind) {
      assert parts[kind][0] in vs;
    }
  }

  /** Keys that are absent impose nothing: with an empty constraints dict
      every text is valid. */
  lemma NoConstraintsNoViolations(text: string)
    ensures ValidateContentConstraints(text, ContentConstraints(None, None, None, None, None)).isValid
  {
  }

  /** The text is valid exactly when its length is within the given bounds,
      every required keyword occurs, no forbidden word occurs and the
      sentence count is within its bound. */
  lemma ContentValidIff(text: string, c: ContentConstraints)
    ensures ValidateContentConstraints(text, c).isValid <==>
      && (c.maxLength.Some? ==> |text| <= c.maxLength.value)
      && (c.minLength.Some? ==> |text| >= c.minLength.value)
      && (c.requiredKeywords.Some? ==> forall k :: k in c.requiredKeywords.value ==> Contains(Lower(text), Lower(k)))
      && (c.forbiddenWords.Some? ==> forall w :: w in c.forbiddenWords.value ==> !Contains(Lower(text), Lower(w)))
      && (c.maxSentences.Some? ==> PeriodSentenceCount(text) <= c.maxSentences.value)
  {
    ValidIffNoBreak(text, c);
    assert !Breaks(text, c, 2) <==> (c.requiredKeywords.Some? ==> forall k :: k in c.requiredKeywords.value ==> Contains(Lower(text), Lower(k)));
    assert !Breaks(text, c, 3) <==> (c.forbiddenWords.Some? ==> forall w :: w in c.forbiddenWords.value ==> !Contains(Lower(text), Lower(w)));
  }

  /** The report is valid exactly when none of the five checks is broken. */
  lemma ValidIffNoBreak(text: string, c: ContentConstraints)
    ensures ValidateContentConstraints(text, c).isValid <==>
      !Breaks(text, c, 0) && !Breaks(text, c, 1) && !Breaks(text, c, 2) && !Breaks(text, c, 3) && !Breaks(text, c, 4)
  {
    var r0, r1, r2, r3, r4 := RunCheck(text, c, 0), RunCheck(text, c, 1), RunCheck(text, c, 2), RunCheck(text, c, 3), RunCheck(text, c, 4);
    assert |ContentViolations(text, c)| == |r0| + |r1| + |r2| + |r3| + |r4|;
  }

  // ---------------------------------------------------------------------
  // Line-based list and table checks
  // ---------------------------------------------------------------------

  /** `text.strip().split('\n')`. */
  function StrippedLines(text: string): (ls: seq<string>)
    ensures |ls| >= 1
  {
    Split(Strip(text), '\n')
  }

  /** Index of the first non-whitespace character. */
  function Indent(line: string): (p: nat)
    ensures p <= |line|
    ensures forall i :: 0 <= i < p ==> IsSpace(line[i])
    ensures p < |line| ==> !IsSpace(line[p])
  {
    if |line| == 0 || !IsSpace(line[0]) then 0 else 1 + Indent(line[1..])
  }

  /** After the marker ending before `k`: at least one whitespace character
      and then at least one more character (`\s+.+`; the line holds no
      newline). */
  predicate SpaceThenText(line: string, k: nat) {
    k + 2 <= |line| && IsSpace(line[k])
  }

  /** `re.match(r'^\s*[-*•]\s+.+', line)`. */
  predicate IsBulletLine(line: string) {
    var p := Indent(line);
    p < |line| && line[p] in {'-', '*', '\U{2022}'} && SpaceThenText(line, p + 1)
  }

  /** `re.match(r'^\s*\d+\.\s+.+', line)`. */
  predicate IsNumberedLine(line: string) {
    var p := Indent(line);
    var d := DigitRun(line, p);
    d > 0 && p + d < |line| && line[p + d] == '.' && SpaceThenText(line, p + d + 1)
  }

  /** A line that matches either pattern is not blank. */
  lemma MatchingLineNotBlank(line: string)
    requires IsBulletLine(line) || IsNumberedLine(line)
    ensures |Strip(line)| > 0
  {
    StripEmpty(line);
    var p := Indent(line);
    assert !IsSpace(line[p]);
  }

  function CountWhere(lines: seq<string>, bullet: bool): (n: nat)
    ensures n <= |lines|
  {
    if |lines| == 0 then 0
    else (if (if bullet then IsBulletLine(lines[0]) else IsNumberedLine(lines[0])) then 1 else 0)
         + CountWhere(lines[1..], bullet)
  }

  lemma {:induction false} CountWhereWithinNonBlank(lines: seq<string>, bullet: bool)
    ensures CountWhere(lines, bullet) <= |NonBlank(lines)|
  {
    if |lines| > 0 {
      CountWhereWithinNonBlank(lines[1..], bullet);
      if bullet && IsBulletLine(lines[0]) {
        MatchingLineNotBlank(lines[0]);
      } else if !bullet && IsNumberedLine(lines[0]) {
        MatchingLineNotBlank(lines[0]);
      }
    }
  }

  lemma {:induction false} CountWherePositive(lines: seq<string>, bullet: bool)
    ensures CountWhere(lines, bullet) > 0 <==>
      exists l :: l in lines && (if bullet then IsBulletLine(l) else IsNumberedLine(l))
  {
    if |lines| > 0 {
      CountWherePositive(lines[1..], bullet);
      assert forall l :: l in lines <==> l == lines[0] || l in lines[1..];
    }
  }

  /** The list-line test: the bullet pattern when `bullet`, else the
      numbered one. */
  function ListLine(bullet: bool): string -> bool {
    l => if bullet then IsBulletLine(l) else IsNumberedLine(l)
  }

  /** `CountWhere` is the number of lines the list-line test accepts. */
  lemma {:induction false} CountWhereIsPositions(lines: seq<string>, bullet: bool)
    ensures CountWhere(lines, bullet) == |Positions(lines, ListLine(bullet))|
  {
    if |lines| > 0 {
      CountWhereIsPositions(lines[1..], bullet);
    }
  }

  /** Every line is counted exactly when every non-blank line matches. */
  lemma {:induction false} CountWhereAllNonBlank(lines: seq<string>, bullet: bool)
    ensures CountWhere(lines, bullet) == |NonBlank(lines)| <==>
      forall l :: l in lines && |Strip(l)| > 0 ==> ListLine(bullet)(l)
  {
    if |lines| > 0 {
      CountWhereAllNonBlank(lines[1..], bullet);
      CountWhereWithinNonBlank(lines[1..], bullet);
      assert forall l :: l in lines <==> l == lines[0] || l in lines[1..];
      if ListLine(bullet)(lines[0]) {
        MatchingLineNotBlank(lines[0]);
      }
    }
  }

  datatype FormatReport =
    | ListReport(isValid: bool, totalLines: nat, validLines: nat, compliance: real)
    | TableReport(isValid: bool, totalLines: nat, tableRows: nat, consistentColumns: bool, columnCounts: seq<nat>)
    | XmlReport(isValid: bool, message: string)
    | JsonReport(isValid: bool, missingFields: seq<string>, errors: seq<string>)
    | FormatError(error: string)
  {
    predicate Valid() {
      !FormatError? && isValid
    }
  }

  /** `_validate_bullet_list` (`bullet`) and `_validate_numbered_list`. */
  function ValidateList(text: string, bullet: bool): (r: FormatReport)
    ensures r.ListReport?
    ensures r.isValid <==> exists l :: l in StrippedLines(text) && (if bullet then IsBulletLine(l) else IsNumberedLine(l))
    ensures r.validLines <= r.totalLines == |NonBlank(StrippedLines(text))|
    ensures r.validLines == |Positions(StrippedLines(text), ListLine(bullet))|
    ensures r.compliance == Ratio(r.validLines, Max(r.totalLines, 1))
    ensures 0.0 <= r.compliance <= 1.0
  {
    var lines := StrippedLines(text);
    var valid := CountWhere(lines, bullet);
    var total := |NonBlank(lines)|;
    CountWherePositive(lines, bullet);
    CountWhereWithinNonBlank(lines, bullet);
    CountWhereIsPositions(lines, bullet);
    ListReport(valid > 0, total, valid, Ratio(valid, Max(total, 1)))
  }

  /** Full compliance means a list with at least one non-blank line, every
      one of which matches the pattern. */
  lemma ListComplianceFull(text: string, bullet: bool)
    ensures var lines := StrippedLines(text);
      ValidateList(text, bullet).compliance == 1.0 <==>
        |NonBlank(lines)| > 0 && forall l :: l in lines && |Strip(l)| > 0 ==> ListLine(bullet)(l)
  {
    var lines := StrippedLines(text);
    CountWhereAllNonBlank(lines, bullet);
    CountWhereWithinNonBlank(lines, bullet);
    CountWhereIsPositions(lines, bullet);
  }

  /** The stripped, non-blank lines of the stripped text. */
  function TableLines(text: string): (r: seq<string>)
    ensures forall l :: l in r ==> |l| > 0
  {
    StripAll(NonBlank(StrippedLines(text)))
  }

  function StripAll(ls: seq<string>): (r: seq<string>)
    requires forall l :: l in ls ==> |Strip(l)| > 0
    ensures |r| == |ls| && forall i :: 0 <= i < |ls| ==> r[i] == Strip(ls[i])
    ensures forall l :: l in r ==> |l| > 0
  {
    var r := seq(|ls|, i requires 0 <= i < |ls| => Strip(ls[i]));
    assert forall i :: 0 <= i < |ls| ==> ls[i] in ls;
    r
  }

  function PipeLines(ls: seq<string>): (r: seq<string>)
    ensures forall l :: l in r <==> l in ls && '|' in l
  {
    if |ls| == 0 then []
    else (if '|' in ls[0] then [ls[0]] else []) + PipeLines(ls[1..])
  }

  function ColumnCounts(ls: seq<string>): (r: seq<nat>)
    ensures |r| == |ls| && forall i :: 0 <= i < |ls| ==> r[i] == |Split(ls[i], '|')|
  {
    seq(|ls|, i requires 0 <= i < |ls| => |Split(ls[i], '|')|)
  }

  predicate AllEqual(xs: seq<nat>) {
    forall i :: 0 <= i < |xs| ==> xs[i] == xs[0]
  }

  /** `_validate_table`. */
  function ValidateTable(text: string): (r: FormatReport)
    ensures |TableLines(text)| == 0 ==> r == FormatError("No content found")
    ensures |TableLines(text)| > 0 && |PipeLines(TableLines(text))| == 0 ==>
      r == FormatError("No pipe-separated table rows found")
    ensures r.TableReport? ==> r.isValid == AllEqual(r.columnCounts) && |r.columnCounts| == r.tableRows > 0
  {
    var lines := TableLines(text);
    if |lines| == 0 then FormatError("No content found")
    else
      var rows := PipeLines(lines);
      if |rows| == 0 then FormatError("No pipe-separated table rows found")
      else
        var counts := ColumnCounts(rows);
        TableReport(AllEqual(counts), |lines|, |rows|, AllEqual(counts), counts)
  }

  /** A table is valid exactly when it has a row with a pipe and every such
      row has the same number of pipes. */
  lemma TableValidIff(text: string)
    ensures ValidateTable(text).Valid() <==>
      var rows := PipeLines(TableLines(text));
      |rows| > 0 && forall i :: 0 <= i < |rows| ==> CountChar(rows[i], '|') == CountChar(rows[0], '|')
  {
    var lines := TableLines(text);
    var rows := PipeLines(lines);
    if |lines| > 0 && |rows| > 0 {
      assert ValidateTable(text).isValid == AllEqual(ColumnCounts(rows));
      SamePipeCounts(rows);
    }
  }

  /** Rows have equal column counts exactly when they have equal pipe counts. */
  lemma SamePipeCounts(rows: seq<string>)
    requires |rows| > 0
    ensures AllEqual(ColumnCounts(rows)) <==> forall i :: 0 <= i < |rows| ==> CountChar(rows[i], '|') == CountChar(rows[0], '|')
  {
    var counts := ColumnCounts(rows);
    forall i | 0 <= i < |rows|
      ensures counts[i] == CountChar(rows[i], '|') + 1
    {
      SplitLength(rows[i], '|');
    }
  }

  /** The XML parser: whether `text.strip()` is well-formed XML, and the
      parser's message when it is not. */
  type XmlParser = string -> Option<string>

  function ValidateXml(text: string, parse: XmlParser): (r: FormatReport)
    ensures r.XmlReport? && (r.isValid <==> parse(Strip(text)).None?)
  {
    match parse(Strip(text))
    case None => XmlReport(true, "valid XML")
    case Some(e) => XmlReport(false, "Invalid XML: " + e)
  }

  const SupportedStructured: seq<string> := ["bullet_list", "numbered_list", "table", "xml"]

  /** The error message of `validate_structured_format` for an unknown type,
      which lists the supported ones. */
  function StructuredUnsupported(formatType: string): string {
    "Unsupported format type: " + formatType + ". Supported: " + ListRepr(SupportedStructured)
  }

  /** The error message of `validate_output_format` for an unknown type. */
  function OutputUnsupported(formatType: string): string {
    "Unsupported format type: " + formatType
  }

  /** `validate_structured_format`. */
  function ValidateStructuredFormat(text: string, formatType: string, parse: XmlParser): (r: FormatReport)
    ensures formatType !in SupportedStructured ==>
      r == FormatError(StructuredUnsupported(formatType))
    ensures formatType == "bullet_list" ==> r == ValidateList(text, true)
    ensures formatType == "numbered_list" ==> r == ValidateList(text, false)
    ensures formatType == "table" ==> r == ValidateTable(text)
    ensures formatType == "xml" ==> r == ValidateXml(text, parse)
  {
    if formatType == "bullet_list" then ValidateList(text, true)
    else if formatType == "numbered_list" then ValidateList(text, false)
    else if formatType == "table" then ValidateTable(text)
    else if formatType == "xml" then ValidateXml(text, parse)
    else FormatError(StructuredUnsupported(formatType))
  }

  /** What the JSON parser says of `text.strip()`: a parse error, an object
      with its keys, or some other JSON value. */
  datatype JsonParse = JsonInvalid(message: string) | JsonObject(keys: set<string>) | JsonOther
  type JsonParser = string -> JsonParse

  /** `validate_json`: parses, then lists the required fields the object
      lacks. Fields are only checked when some are required and the value
      is an object. */
  function ValidateJson(text: string, requiredFields: seq<string>, parse: JsonParser): (r: FormatReport)
    ensures r.JsonReport?
    ensures parse(Strip(text)).JsonInvalid? ==> !r.isValid && r.missingFields == []
    ensures parse(Strip(text)).JsonObject? ==>
      (r.isValid <==> forall f :: f in requiredFields ==> f in parse(Strip(text)).keys)
    ensures parse(Strip(text)).JsonOther? ==> r.isValid
    ensures forall f :: f in r.missingFields ==> f in requiredFields
  {
    match parse(Strip(text))
    case JsonInvalid(m) => JsonReport(false, [], ["Invalid JSON format: " + m])
    case JsonOther => JsonReport(true, [], [])
    case JsonObject(keys) =>
      var missing := Absent(requiredFields, keys);
      if |missing| == 0 then JsonReport(true, [], [])
      else
        assert missing[0] in missing;
        JsonReport(false, missing, ["Missing required fields: " + ListRepr(missing)])
  }

  function Absent(fields: seq<string>, keys: set<string>): (r: seq<string>)
    ensures forall f :: f in r <==> f in fields && f !in keys
  {
    if |fields| == 0 then []
    else (if fields[0] in keys then [] else [fields[0]]) + Absent(fields[1..], keys)
  }

  /** `validate_output_format`: JSON, one of the structured formats, or an
      unsupported-format error. */
  function ValidateOutputFormat(text: string, expectedFormat: string, requiredFields: seq<string>,
                                json: JsonParser, xml: XmlParser): (r: FormatReport)
    ensures expectedFormat == "json" ==> r == ValidateJson(text, requiredFields, json)
    ensures expectedFormat != "json" && expectedFormat !in SupportedStructured ==>
      r == FormatError(OutputUnsupported(expectedFormat))
    ensures expectedFormat == "bullet_list" || expectedFormat == "numbered_list" ==> r.ListReport?
    ensures expectedFormat == "table" ==>
      r.TableReport? || r == FormatError("No content found") || r == FormatError("No pipe-separated table rows found")
    ensures expectedFormat == "xml" ==> r.XmlReport?
  {
    if expectedFormat == "json" then ValidateJson(text, requiredFields, json)
    else if expectedFormat in SupportedStructured then ValidateStructuredFormat(text, expectedFormat, xml)
    else FormatError(OutputUnsupported(expectedFormat))
  }

  /** For the four structured types the report is exactly the structured
      validator's. */
  lemma StructuredDispatch(text: string, t: string, fields: seq<string>, json: JsonParser, xml: XmlParser)
    requires t in SupportedStructured
    ensures ValidateOutputFormat(text, t, fields, json, xml) == ValidateStructuredFormat(text, t, xml)
  {
    assert t != "json";
    if t == "bullet_list" {
    } else if t == "numbered_list" {
    } else if t == "table" {
    } else {
      assert t == "xml";
    }
  }

  /** An unsupported format is never valid, whichever entry point is used. */
  lemma UnsupportedNeverValid(text: string, t: string, fields: seq<string>, json: JsonParser, xml: XmlParser)
    requires t != "json" && t !in SupportedStructured
    ensures !ValidateOutputFormat(text, t, fields, json, xml).Valid()
    ensures !ValidateStructuredFormat(text, t, xml).Valid()
  {
  }

  // ---------------------------------------------------------------------
  // Format instructions for prompts
  // ---------------------------------------------------------------------

  function SuffixTable(formatType: string): Option<string> {
    if formatType == "json" then Some("Format your response as a valid JSON object.")
    else if formatType == "bullet_list" then Some("Format your response as a bullet list using - or \U{2022} symbols.")
    else if formatType == "numbered_list" then Some("Format your response as a numbered list (1., 2., 3., etc.).")
    else if formatType == "table" then Some("Format your response as a table using pipe (|) separators.")
    else if formatType == "xml" then Some("Format your response as valid XML.")
    else None
  }

  /** The `requirements` dict: the two keys it may hold that matter. */
  datatype Requirements = Requirements(requiredFields: Option<seq<string>>, maxLength: Option<int>)

  function BaseSuffix(formatType: string): string {
    SuffixTable(formatType).GetOr("Format your response as " + formatType + ".")
  }

  function FieldsSentence(fields: seq<string>): string {
    " Include these required fields: " + Join(fields, ", ") + "."
  }

  function LengthSentence(n: int): string {
    " Keep response under " + IntToString(n) + " characters."
  }

  /** `create_format_prompt_suffix`. */
  function FormatPromptSuffix(formatType: string, requirements: Requirements): (s: string)
    ensures StartsWith(s, BaseSuffix(formatType))
  {
    var base := BaseSuffix(formatType);
    var withFields :=
      if requirements.requiredFields.Some? && formatType == "json"
      then base + FieldsSentence(requirements.requiredFields.value) else base;
    var r := if requirements.maxLength.Some? then withFields + LengthSentence(requirements.maxLength.value) else withFields;
    assert r[..|base|] == base by {
      assert withFields[..|base|] == base;
    }
    r
  }

  /** The suffix is the base sentence, then the required-fields sentence only
      for JSON, then the length sentence for any type. */
  lemma FormatPromptSuffixParts(formatType: string, requirements: Requirements)
    ensures var s := FormatPromptSuffix(formatType, requirements);
      var fields := requirements.requiredFields.Some? && formatType == "json";
      s == BaseSuffix(formatType)
           + (if fields then FieldsSentence(requirements.requiredFields.value) else "")
           + (if requirements.maxLength.Some? then LengthSentence(requirements.maxLength.value) else "")
    ensures formatType != "json" ==>
      FormatPromptSuffix(formatType, requirements) == FormatPromptSuffix(formatType, requirements.(requiredFields := None))
    ensures SuffixTable(formatType).None? ==> StartsWith(FormatPromptSuffix(formatType, requirements),
                                                         "Format your response as " + formatType + ".")
  {
  }
}
