/**
 Serving one byte range of a file (`_parse_single_byte_range` and
 `_inline_content_response` in backend/app/api/routes/skills.py), following
 sections 14.1.2 and 14.4 of RFC 9110 for a single range.

 A header arrives decoded as Latin-1.  Python's `isdigit` accepts the Latin-1
 superscripts, and its `int` rejects them and any text of more than 4300 digits;
 both show up here as `Crash`, the uncaught ValueError.
 */
module ByteRange {
  import opened Options
  import opened Decimal
  import opened PythonText

  datatype Outcome = Window(start: nat, end: nat) | Unsatisfiable | Crash

  const MAX_INT_DIGITS := 4300

  // ------------------------------------------------------------ Python text

  predicate IsSuperscript(c: char) {
    var n := c as int;
    n == 178 || n == 179 || n == 185
  }

  /** `str.isdigit` on Latin-1 text. */
  predicate LooksNumeric(s: string) {
    s != "" && forall i :: 0 <= i < |s| ==> IsDigit(s[i]) || IsSuperscript(s[i])
  }

  /** `int` on text that `isdigit` accepted. */
  function ToInt(s: string): Option<nat> {
    if AllDigits(s) && |s| <= MAX_INT_DIGITS then Some(Read(s)) else None
  }

  /** Index of the first `c`, or the length. */
  function Find(s: string, c: char): (i: nat)
    ensures i <= |s| && (i < |s| ==> s[i] == c)
    ensures forall j :: 0 <= j < i ==> s[j] != c
  {
    if s == "" || s[0] == c then 0 else 1 + Find(s[1..], c)
  }

  function Min(a: nat, b: nat): nat { if a < b then a else b }

  // ---------------------------------------------------------------- parser

  function ParseSuffix(endText: string, size: nat): Outcome
    requires size > 0
  {
    if !LooksNumeric(endText) then Unsatisfiable
    else
      match ToInt(endText)
      case None => Crash
      case Some(n) => if n == 0 then Unsatisfiable else Window(if size > n then size - n else 0, size - 1)
  }

  function ParseBounds(startText: string, endText: string, size: nat): Outcome
    requires size > 0
  {
    if !LooksNumeric(startText) || (endText != "" && !LooksNumeric(endText)) then Unsatisfiable
    else
      var start := ToInt(startText);
      var end := if endText != "" then ToInt(endText) else Some(size - 1);
      if start.None? || end.None? then Crash
      else if start.value >= size || end.value < start.value then Unsatisfiable
      else Window(start.value, Min(end.value, size - 1))
  }

  /** The two texts around the dash. */
  datatype Bounds = Bounds(start: string, end: string)

  function SplitSpec(spec: string): Option<Bounds> {
    var dash := Find(spec, '-');
    if ',' in spec || dash == |spec| then None
    else Some(Bounds(Strip(spec[..dash]), Strip(spec[dash + 1..])))
  }

  predicate IsBytesUnit(unit: string) { Lower(Strip(unit)) == "bytes" }

  function Split(header: string): Option<Bounds> {
    var eq := Find(header, '=');
    if eq == |header| || !IsBytesUnit(header[..eq]) then None else SplitSpec(Strip(header[eq + 1..]))
  }

  function ParseSplit(bounds: Option<Bounds>, size: nat): Outcome
    requires size > 0
  {
    match bounds
    case None => Unsatisfiable
    case Some(Bounds(start, end)) => if start == "" then ParseSuffix(end, size) else ParseBounds(start, end, size)
  }

  function Parse(header: string, size: nat): Outcome {
    if size == 0 then Unsatisfiable else ParseSplit(Split(header), size)
  }

  // -------------------------------------------------------------- response

  datatype Response<T> =
    | Full(body: seq<T>, contentLength: nat)
    | Partial(body: seq<T>, contentLength: nat, first: nat, last: nat, total: nat)
    | NotSatisfiable(total: nat)
    | ServerError

  function Respond<T>(content: seq<T>, header: Option<string>): Response<T> {
    if header.None? || header.value == "" then Full(content, |content|)
    else
      match Parse(header.value, |content|)
      case Crash => ServerError
      case Unsatisfiable => NotSatisfiable(|content|)
      case Window(start, end) =>
        WindowInBounds(header.value, |content|);
        var body := content[start..end + 1];
        Partial(body, |body|, start, end, |content|)
  }

  /** An accepted range is a non-empty window of the content. */
  lemma WindowInBounds(header: string, size: nat)
    requires Parse(header, size).Window?
    ensures Parse(header, size).start <= Parse(header, size).end < size
  {
  }

  /** A partial response carries the bytes it announces. */
  lemma PartialIsWindow<T>(content: seq<T>, header: Option<string>)
    requires Respond(content, header).Partial?
    ensures var r := Respond(content, header);
            && r.first <= r.last < r.total == |content|
            && r.contentLength == |r.body| == r.last - r.first + 1
            && forall i :: 0 <= i < |r.body| ==> r.body[i] == content[r.first + i]
  {
  }

  /** Without a header the whole content is sent; a refusal names its length. */
  lemma OtherResponses<T>(content: seq<T>, header: Option<string>)
    ensures var r := Respond(content, header);
            && (r.Full? <==> header.None? || header.value == "")
            && (r.Full? ==> r.body == content && r.contentLength == |content|)
            && (r.NotSatisfiable? ==> r.total == |content|)
  {
  }

  // ------------------------------------------------------------ when it fails

  /** A numeral `isdigit` lets through and `int` does not. */
  predicate Unreadable(s: string) {
    |s| > MAX_INT_DIGITS || exists i :: 0 <= i < |s| && IsSuperscript(s[i])
  }

  lemma ReadableIff(s: string)
    requires LooksNumeric(s)
    ensures ToInt(s).None? <==> Unreadable(s)
  {
  }

  /** The texts of a range that is made of numerals only. */
  predicate Numerals(b: Bounds) {
    if b.start == "" then LooksNumeric(b.end) else LooksNumeric(b.start) && (b.end == "" || LooksNumeric(b.end))
  }

  /**
   Parsing ends in an uncaught error exactly for a well-formed range one of whose
   numerals holds a superscript or has more than 4300 digits.
   */
  lemma CrashIff(header: string, size: nat)
    requires size > 0
    ensures Parse(header, size) == Crash
            <==> var b := Split(header);
                 b.Some? && Numerals(b.value) && (Unreadable(b.value.start) || Unreadable(b.value.end))
  {
    var bounds := Split(header);
    if bounds.Some? && Numerals(bounds.value) {
      if bounds.value.start != "" { ReadableIff(bounds.value.start); }
      if bounds.value.end != "" { ReadableIff(bounds.value.end); }
    }
  }

  // ----------------------------------------------------------- what is asked

  /** Byte k of `size` is asked for: from `start` to `end` where given, or one of the last `end`. */
  predicate Wanted(b: Bounds, size: nat, k: nat)
    requires AllDigits(b.start) && AllDigits(b.end)
  {
    if b.start == "" then k + Read(b.end) >= size
    else Read(b.start) <= k && (b.end == "" || k <= Read(b.end))
  }

  /**
   What is served is exactly what is asked for: the window holds the wanted bytes,
   and a range of readable numerals is refused only when it wants none; anything but
   a range of numerals is refused.
   */
  lemma WindowIsWanted(header: string, size: nat)
    ensures var b, parsed := Split(header), Parse(header, size);
            if size == 0 || b.None? || !Numerals(b.value) then parsed == Unsatisfiable
            else if Unreadable(b.value.start) || Unreadable(b.value.end) then parsed == Crash
            else
              && AllDigits(b.value.start) && AllDigits(b.value.end) && !parsed.Crash?
              && forall k: nat :: k < size ==>
                   (Wanted(b.value, size, k) <==> parsed.Window? && parsed.start <= k <= parsed.end)
  {
    var b := Split(header);
    if size > 0 && b.Some? && Numerals(b.value) {
      if b.value.start != "" { ReadableIff(b.value.start); }
      if b.value.end != "" { ReadableIff(b.value.end); }
      if !Unreadable(b.value.start) && !Unreadable(b.value.end) { BoundsAreWanted(b.value, size); }
    }
  }

  lemma BoundsAreWanted(b: Bounds, size: nat)
    requires size > 0 && Numerals(b) && !Unreadable(b.start) && !Unreadable(b.end)
    ensures AllDigits(b.start) && AllDigits(b.end) && !ParseSplit(Some(b), size).Crash?
    ensures var parsed := ParseSplit(Some(b), size);
            forall k: nat :: k < size ==>
              (Wanted(b, size, k) <==> parsed.Window? && parsed.start <= k <= parsed.end)
  {
    if b.start != "" { ReadableIff(b.start); }
    if b.end != "" { ReadableIff(b.end); }
  }

  // --------------------------------------------------------- accepted spelling

  /** The five letters, each in either case. */
  predicate SpellsBytes(core: string) {
    |core| == 5 && forall i :: 0 <= i < 5 ==> core[i] == "bytes"[i] || core[i] == "BYTES"[i]
  }

  lemma LowerIsBytes(core: string)
    ensures Lower(core) == "bytes" <==> SpellsBytes(core)
  {
    if Lower(core) == "bytes" {
      forall i | 0 <= i < 5 ensures core[i] == "bytes"[i] || core[i] == "BYTES"[i] {
        assert Lower(core)[i] == LowerChar(core[i]) == "bytes"[i];
      }
    }
    if SpellsBytes(core) {
      forall i | 0 <= i < 5 ensures Lower(core)[i] == "bytes"[i] {}
    }
  }

  lemma BytesUnitIff(unit: string)
    ensures IsBytesUnit(unit) <==> exists core :: Trims(unit, core) && SpellsBytes(core)
  {
    StripIff(unit, Strip(unit));
    LowerIsBytes(Strip(unit));
    if core :| Trims(unit, core) && SpellsBytes(core) { StripIff(unit, core); }
  }

  /** Unit, first text and second text, with the first = and the first - after it between them, and no comma. */
  predicate Parted(header: string, unit: string, x: string, y: string) {
    header == unit + ['='] + (x + ['-'] + y) && '=' !in unit && '-' !in x && ',' !in x && ',' !in y
  }

  ghost predicate Spells(header: string, unit: string, x: string, y: string, b: Bounds) {
    && Parted(header, unit, x, y) && Trims(x, b.start) && Trims(y, b.end)
    && exists core :: Trims(unit, core) && SpellsBytes(core)
  }

  /** In a cut of `x-y` that leaves out blanks only, the dash is where it was. */
  lemma DashInCut(x: string, y: string, i: nat, j: nat)
    requires '-' !in x && i <= j <= |x| + 1 + |y| && BlankOutside(x + ['-'] + y, i, j)
    ensures i <= |x| < j && BlankOutside(x, i, |x|) && BlankOutside(y, 0, j - |x| - 1)
    ensures var spec := (x + ['-'] + y)[i..j];
            && Find(spec, '-') == |x| - i
            && spec[..|x| - i] == x[i..] && spec[|x| - i + 1..] == y[..j - |x| - 1]
  {
    var rest := x + ['-'] + y;
    var n := |x|;
    assert rest[n] == '-' && !IsSpace('-');
    assert forall k :: 0 <= k < n ==> rest[k] == x[k];
    assert forall k :: 0 <= k < |y| ==> y[k] == rest[k + n + 1];
    var spec := rest[i..j];
    assert spec == x[i..] + ['-'] + y[..j - n - 1];
    FindAfter(x[i..], '-', y[..j - n - 1]);
  }

  /** The stripped texts around the dash of `x-y` are those of `x` and of `y`. */
  lemma DashInside(x: string, y: string)
    requires '-' !in x
    ensures var spec := Strip(x + ['-'] + y);
            var dash := Find(spec, '-');
            && dash < |spec| && (',' in spec <==> ',' in x + ['-'] + y)
            && Strip(spec[..dash]) == Strip(x) && Strip(spec[dash + 1..]) == Strip(y)
  {
    var rest := x + ['-'] + y;
    var i, j := StripTrims(rest);
    DashInCut(x, y, i, j);
    var n := |x|;
    StripCut(x, i, n);
    assert x[i..n] == x[i..];
    StripCut(y, 0, j - n - 1);
    assert y[0..j - n - 1] == y[..j - n - 1];
    CommaInside(rest, i, j);
  }

  lemma CommaInside(s: string, i: nat, j: nat)
    requires i <= j <= |s| && BlankOutside(s, i, j)
    ensures ',' in s[i..j] <==> ',' in s
  {
    assert !IsSpace(',');
    if ',' in s {
      var k :| 0 <= k < |s| && s[k] == ',';
      assert s[i..j][k - i] == ',';
    }
  }

  lemma SpecOfParts(x: string, y: string, b: Bounds)
    requires '-' !in x
    ensures SplitSpec(Strip(x + ['-'] + y)) == Some(b)
            <==> ',' !in x && ',' !in y && Trims(x, b.start) && Trims(y, b.end)
  {
    DashInside(x, y);
    StripIff(x, b.start);
    StripIff(y, b.end);
  }

  lemma CutAt(s: string, n: nat)
    requires n < |s|
    ensures s == s[..n] + [s[n]] + s[n + 1..]
  {
  }

  lemma DashNeeded(rest: string) returns (x: string, y: string)
    requires SplitSpec(Strip(rest)).Some?
    ensures rest == x + ['-'] + y && '-' !in x
  {
    var i, j := StripTrims(rest);
    var dash := Find(Strip(rest), '-');
    assert Strip(rest)[dash] == rest[i..j][dash] == rest[i + dash];
    var n := Find(rest, '-');
    CutAt(rest, n);
    x, y := rest[..n], rest[n + 1..];
  }

  /**
   A header is read as a range exactly when it is `bytes` in any case, an equals sign,
   and two texts with a dash between them and no comma, with blanks anywhere around
   the unit and the texts.
   */
  lemma SplitIff(header: string, b: Bounds)
    ensures Split(header) == Some(b) <==> exists unit, x, y :: Spells(header, unit, x, y, b)
  {
    if Split(header) == Some(b) { var unit, x, y := SplitSpells(header, b); }
    if unit, x, y :| Spells(header, unit, x, y, b) { SpelledSplits(header, unit, x, y, b); }
  }

  lemma SplitSpells(header: string, b: Bounds) returns (unit: string, x: string, y: string)
    requires Split(header) == Some(b)
    ensures Spells(header, unit, x, y, b)
  {
    var eq := Find(header, '=');
    unit := header[..eq];
    var rest := header[eq + 1..];
    assert header == unit + ['='] + rest;
    x, y := DashNeeded(rest);
    SpecOfParts(x, y, b);
    BytesUnitIff(unit);
  }

  lemma SpelledSplits(header: string, unit: string, x: string, y: string, b: Bounds)
    requires Spells(header, unit, x, y, b)
    ensures Split(header) == Some(b)
  {
    FindAfter(unit, '=', x + ['-'] + y);
    BytesUnitIff(unit);
    SpecOfParts(x, y, b);
  }

  // ------------------------------------------------------------ printed form

  lemma StripPlain(s: string)
    requires forall c :: c in s ==> !IsSpace(c)
    ensures Strip(s) == s
  {
    if s != "" { assert s[0] in s && s[|s| - 1] in s; }
  }

  lemma FindAfter(a: string, c: char, b: string)
    requires c !in a
    ensures Find(a + [c] + b, c) == |a|
    ensures (a + [c] + b)[..|a|] == a && (a + [c] + b)[|a| + 1..] == b
  {
    var s := a + [c] + b;
    assert s[|a|] == c;
    assert forall j :: 0 <= j < |a| ==> s[j] == a[j];
  }

  lemma DigitsPlain(s: string)
    requires AllDigits(s)
    ensures forall c :: c in s ==> IsDigit(c) && !IsSpace(c) && c != '-' && c != ',' && c != '='
  {
  }

  /** `bytes=<startText>-<endText>` for digit texts (either may be empty). */
  function RangeHeader(startText: string, endText: string): string {
    "bytes" + ['='] + (startText + ['-'] + endText)
  }

  lemma SplitPrinted(startText: string, endText: string)
    requires AllDigits(startText) && AllDigits(endText)
    ensures SplitSpec(startText + ['-'] + endText) == Some(Bounds(startText, endText))
  {
    DigitsPlain(startText);
    DigitsPlain(endText);
    FindAfter(startText, '-', endText);
    StripPlain(startText);
    StripPlain(endText);
  }

  lemma BytesUnit()
    ensures IsBytesUnit("bytes")
  {
    StripPlain("bytes");
    assert Lower("bytes") == "bytes";
  }

  lemma SplitRangeHeader(startText: string, endText: string)
    requires AllDigits(startText) && AllDigits(endText)
    ensures Split(RangeHeader(startText, endText)) == Some(Bounds(startText, endText))
  {
    var spec := startText + ['-'] + endText;
    BytesUnit();
    FindAfter("bytes", '=', spec);
    DigitsPlain(startText);
    DigitsPlain(endText);
    StripPlain(spec);
    SplitPrinted(startText, endText);
  }

  lemma PrintedBounds(a: nat, b: nat, size: nat)
    requires size > 0 && |Print(a)| <= MAX_INT_DIGITS && |Print(b)| <= MAX_INT_DIGITS
    ensures ParseBounds(Print(a), Print(b), size)
            == if a < size && a <= b then Window(a, Min(b, size - 1)) else Unsatisfiable
  {
    ReadPrint(a);
    ReadPrint(b);
  }

  /** A printed range comes back as asked, cut at the end of the content. */
  lemma PrintedRange(a: nat, b: nat, size: nat)
    requires size > 0 && |Print(a)| <= MAX_INT_DIGITS && |Print(b)| <= MAX_INT_DIGITS
    ensures Parse(RangeHeader(Print(a), Print(b)), size)
            == if a < size && a <= b then Window(a, Min(b, size - 1)) else Unsatisfiable
  {
    SplitRangeHeader(Print(a), Print(b));
    PrintedBounds(a, b, size);
  }

  lemma PrintedEnds(a: nat, size: nat)
    requires size > 0 && |Print(a)| <= MAX_INT_DIGITS
    ensures ParseBounds(Print(a), "", size) == if a < size then Window(a, size - 1) else Unsatisfiable
    ensures ParseSuffix(Print(a), size)
            == if a == 0 then Unsatisfiable else Window(if a < size then size - a else 0, size - 1)
  {
    ReadPrint(a);
  }

  /** `bytes=a-` reaches to the end; `bytes=-n` is the last n bytes, or everything when n is too large. */
  lemma PrintedOpenRange(a: nat, size: nat)
    requires size > 0 && |Print(a)| <= MAX_INT_DIGITS
    ensures Parse(RangeHeader(Print(a), ""), size) == if a < size then Window(a, size - 1) else Unsatisfiable
    ensures Parse(RangeHeader("", Print(a)), size)
            == if a == 0 then Unsatisfiable else Window(if a < size then size - a else 0, size - 1)
  {
    SplitRangeHeader(Print(a), "");
    SplitRangeHeader("", Print(a));
    PrintedEnds(a, size);
  }

  const SUPERSCRIPT_TWO := ['\U{00B2}']

  lemma SplitSuperscript()
    ensures Split(RangeHeader(SUPERSCRIPT_TWO, "")) == Some(Bounds(SUPERSCRIPT_TWO, ""))
  {
    var spec := SUPERSCRIPT_TWO + ['-'] + "";
    BytesUnit();
    FindAfter("bytes", '=', spec);
    StripPlain(spec);
    FindAfter(SUPERSCRIPT_TWO, '-', "");
    StripPlain(SUPERSCRIPT_TWO);
    StripPlain("");
  }

  /** Such a header exists: a superscript two. */
  lemma SuperscriptCrashes(size: nat)
    requires size > 0
    ensures Parse(RangeHeader(SUPERSCRIPT_TWO, ""), size) == Crash
  {
    SplitSuperscript();
    assert IsSuperscript(SUPERSCRIPT_TWO[0]);
  }

  // -------------------------------------------------------- piecewise fetching

  /** A header that asks for `step` bytes from `from` on. */
  predicate AsksFor(header: string, from: nat, step: nat) {
    step > 0 && Split(header) == Some(Bounds(Print(from), Print(from + step - 1)))
  }

  lemma RangeHeaderAsks(from: nat, step: nat)
    requires step > 0
    ensures AsksFor(RangeHeader(Print(from), Print(from + step - 1)), from, step)
  {
    SplitRangeHeader(Print(from), Print(from + step - 1));
  }

  lemma ParsePiece(header: string, from: nat, step: nat, size: nat)
    requires AsksFor(header, from, step) && from < size && |Print(size + step)| <= MAX_INT_DIGITS
    ensures header != "" && Parse(header, size) == Window(from, Min(from + step, size) - 1)
  {
    PrintMonotone(from, size + step);
    PrintMonotone(from + step - 1, size + step);
    PrintedBounds(from, from + step - 1, size);
  }

  lemma RespondWindow<T>(content: seq<T>, header: string, start: nat, end: nat)
    requires header != "" && Parse(header, |content|) == Window(start, end)
    ensures start <= end < |content|
    ensures Respond(content, Some(header)) == Partial(content[start..end + 1], end + 1 - start, start, end, |content|)
  {
  }

  /** The answer holds the next `step` bytes, or what is left of them. */
  predicate IsPiece<T(==)>(r: Response<T>, content: seq<T>, from: nat, step: nat) {
    from < |content| && r.Partial? && r.body == content[from..Min(from + step, |content|)]
  }

  lemma Piece<T>(content: seq<T>, header: string, from: nat, step: nat)
    requires AsksFor(header, from, step) && from < |content| && |Print(|content| + step)| <= MAX_INT_DIGITS
    ensures IsPiece(Respond(content, Some(header)), content, from, step)
  {
    ParsePiece(header, from, step, |content|);
    RespondWindow(content, header, from, Min(from + step, |content|) - 1);
  }

  /** A client that takes the content from `from` on, `step` bytes at a time. */
  function Fetch<T>(answer: nat -> Response<T>, from: nat, step: nat, size: nat): seq<T>
    requires step > 0
    decreases size - from
  {
    if from >= size || !answer(from).Partial? then [] else answer(from).body + Fetch(answer, from + step, step, size)
  }

  lemma {:induction false} FetchConcatenates<T>(answer: nat -> Response<T>, content: seq<T>, from: nat, step: nat)
    requires step > 0 && from <= |content|
    requires forall f :: 0 <= f < |content| ==> IsPiece(answer(f), content, f, step)
    ensures Fetch(answer, from, step, |content|) == content[from..]
    decreases |content| - from
  {
    if from < |content| {
      assert IsPiece(answer(from), content, from, step);
      if from + step <= |content| {
        FetchConcatenates(answer, content, from + step, step);
        assert content[from..] == content[from..from + step] + content[from + step..];
      }
    }
  }

  /** Consecutive windows put the content back together. */
  lemma PiecesConcatenate<T>(content: seq<T>, header: nat -> string, answer: nat -> Response<T>, from: nat, step: nat)
    requires step > 0 && from <= |content| && |Print(|content| + step)| <= MAX_INT_DIGITS
    requires forall f :: 0 <= f < |content| ==> AsksFor(header(f), f, step)
    requires forall f :: 0 <= f < |content| ==> answer(f) == Respond(content, Some(header(f)))
    ensures Fetch(answer, from, step, |content|) == content[from..]
  {
    forall f | 0 <= f < |content| ensures IsPiece(answer(f), content, f, step) {
      assert AsksFor(header(f), f, step);
      Piece(content, header(f), f, step);
    }
    FetchConcatenates(answer, content, from, step);
  }

  /** In particular for a client that prints `bytes=a-b` each time. */
  lemma PrintedPiecesConcatenate<T>(content: seq<T>, header: nat -> string, answer: nat -> Response<T>, from: nat,
                                    step: nat)
    requires step > 0 && from <= |content| && |Print(|content| + step)| <= MAX_INT_DIGITS
    requires forall f :: 0 <= f < |content| ==> header(f) == RangeHeader(Print(f), Print(f + step - 1))
    requires forall f :: 0 <= f < |content| ==> answer(f) == Respond(content, Some(header(f)))
    ensures Fetch(answer, from, step, |content|) == content[from..]
  {
    forall f | 0 <= f < |content| ensures AsksFor(header(f), f, step) { RangeHeaderAsks(f, step); }
    PiecesConcatenate(content, header, answer, from, step);
  }
}
