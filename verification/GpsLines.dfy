/** The tolerant parser of tracker lines and the printer it must undo. */
module GpsLines {
  import opened Common
  import opened Text
  import opened Numerals

  const MAX_MESSAGE := 2048
  const MIN_SATS := 3
  const MAX_SATS := 64
  const MAX_SPEED := 300
  const MILLISECONDS_FROM := 10_000_000_000
  const MAX_SKEW := 604_800
  const DEGREE := 1_000_000

  datatype Error = BadFormat | NoFix

  /** Coordinates in millionths of a degree. */
  datatype Point = Point(device: string, lat: int, lon: int, sats: nat, speed: Option<real>,
                         recordedAt: Option<int>, token: Option<string>, code: Option<string>)

  /** `Mapping` hands the text over to the JSON and key=value readers. */
  datatype Parsed = Accepted(point: Point) | Refused(error: Error) | Mapping

  // ----- Single fields -----

  predicate IsDeviceChar(c: char) {
    'A' <= c <= 'Z' || 'a' <= c <= 'z' || IsDigit(c) || c == '_' || c == '.' || c == ':' || c == '-'
  }

  predicate IsHexDigit(c: char) { 'A' <= c <= 'F' || 'a' <= c <= 'f' || IsDigit(c) }

  predicate IsDevice(s: string) { 1 <= |s| <= 32 && forall c <- s :: IsDeviceChar(c) }

  predicate IsCount(s: string) { 1 <= |s| <= 3 && AllDigits(s) }

  predicate IsCode(s: string) { 6 <= |s| <= 10 && AllDigits(s) }

  predicate IsToken(s: string) { 16 <= |s| <= 64 && forall c <- s :: IsHexDigit(c) }

  predicate IsPoint(c: char) { c == '.' || c == ',' }

  /** The digits before the decimal point. */
  function WholePart(s: string): (w: string)
    ensures w <= s
  {
    if s == [] || IsPoint(s[0]) then [] else [s[0]] + WholePart(s[1..])
  }

  function Unsigned(s: string): string { if s != [] && (s[0] == '-' || s[0] == '+') then s[1..] else s }

  /** Up to three digits, and optionally a point or comma with up to nine more: all the digits, and how many of them
      are decimals. */
  function DigitsOf(text: string): (r: Option<(string, nat)>)
    ensures r.Some? ==> AllDigits(r.value.0)
  {
    var whole := WholePart(text);
    var rest := text[|whole|..];
    if !(1 <= |whole| <= 3 && AllDigits(whole)) then None
    else if rest == [] then Some((whole, 0))
    else if 2 <= |rest| <= 10 && AllDigits(rest[1..]) then Some((whole + rest[1..], |rest| - 1))
    else None
  }

  /** An optional sign and such digits. */
  function ReadCoordinate(s: string): Option<Decimal> {
    match DigitsOf(Unsigned(s))
    case None => None
    case Some((digits, scale)) => Some(Signed(s, digits, scale))
  }

  function Signed(s: string, digits: string, scale: nat): Decimal
    requires AllDigits(digits)
  {
    Decimal(if s != [] && s[0] == '-' then -(Value(digits) as int) else Value(digits), scale)
  }

  predicate IsCoordinate(s: string) { ReadCoordinate(s).Some? }

  predicate WithinDegrees(x: Decimal, bound: nat) { Magnitude(x.digits) <= bound * Power10(x.scale) }

  // ----- Choosing the separator -----

  datatype Layout = Layout(parts: seq<string>, token: Option<string>, code: Option<string>)

  /** A credential may stand where the latitude would. */
  function TakeCredential(parts: seq<string>): Layout {
    if |parts| >= 5 && !IsCoordinate(parts[1]) && IsCode(parts[1]) then
      Layout(parts[..1] + parts[2..], None, Some(parts[1]))
    else if |parts| >= 5 && !IsCoordinate(parts[1]) && IsToken(parts[1]) then
      Layout(parts[..1] + parts[2..], Some(parts[1]), None)
    else Layout(parts, None, None)
  }

  predicate Fits(layout: Layout) {
    |layout.parts| >= 3 && IsCoordinate(layout.parts[1]) && IsCoordinate(layout.parts[2])
  }

  function Fields(raw: string, isSep: char -> bool): seq<string> { Tidy(Split(raw, isSep)) }

  /** The ways to divide a line, in the order they are tried. */
  function Candidates(raw: string): seq<seq<string>> {
    (if ';' in raw then [Fields(raw, c => c == ';')] else [])
    + (if '\t' in raw then [Fields(raw, c => c == '\t')] else [])
    + [Fields(raw, c => IsSpace(c))]
    + [Fields(raw, c => c == ',')]
    + [Fields(raw, c => IsSpace(c) || c == ',' || c == ';')]
  }

  /** The first way that puts coordinates in their places, else the one with the most fields. */
  function Choose(candidates: seq<seq<string>>, best: seq<string>): Layout {
    if candidates == [] then Layout(best, None, None) else
      var layout := TakeCredential(candidates[0]);
      if Fits(layout) then layout
      else Choose(candidates[1..], if |layout.parts| > |best| then layout.parts else best)
  }

  predicate FitsAt(candidates: seq<seq<string>>, i: nat)
    requires i < |candidates|
  {
    Fits(TakeCredential(candidates[i]))
  }

  /** The fields each candidate leaves once a credential is taken out. */
  function Taken(candidates: seq<seq<string>>): seq<seq<string>> {
    seq(|candidates|, i requires 0 <= i < |candidates| => TakeCredential(candidates[i]).parts)
  }

  /** The first of the first n with the most fields. */
  predicate Longest(taken: seq<seq<string>>, n: nat, k: nat) {
    && k < n <= |taken|
    && (forall j :: 0 <= j < n ==> |taken[j]| <= |taken[k]|)
    && forall j :: 0 <= j < k ==> |taken[j]| < |taken[k]|
  }

  predicate NoneFits(candidates: seq<seq<string>>, n: nat)
    requires n <= |candidates|
  {
    forall j :: 0 <= j < n ==> !FitsAt(candidates, j)
  }

  /** The layout of the first candidate that puts coordinates in their places. */
  ghost predicate FirstFit(candidates: seq<seq<string>>, layout: Layout) {
    exists i :: 0 <= i < |candidates| && FitsAt(candidates, i) && NoneFits(candidates, i)
      && layout == TakeCredential(candidates[i])
  }

  /** When none does, the most fields, without a credential. */
  ghost predicate MostFields(candidates: seq<seq<string>>, layout: Layout) {
    && NoneFits(candidates, |candidates|)
    && exists k: nat :: Longest(Taken(candidates), |candidates|, k)
         && layout == Layout(Taken(candidates)[k], None, None)
  }

  lemma FittingChosen(candidates: seq<seq<string>>, i: nat, best: seq<string>)
    requires i < |candidates| && FitsAt(candidates, i)
    ensures Choose(candidates[i..], best) == TakeCredential(candidates[i])
  {
    assert candidates[i..][0] == candidates[i];
  }

  lemma NextTried(candidates: seq<seq<string>>, i: nat, best: seq<string>, next: seq<string>)
    requires i < |candidates| && !FitsAt(candidates, i)
    requires next == if |Taken(candidates)[i]| > |best| then Taken(candidates)[i] else best
    ensures Choose(candidates[i..], best) == Choose(candidates[i + 1..], next)
  {
    assert candidates[i..][0] == candidates[i] && candidates[i..][1..] == candidates[i + 1..];
  }

  /** The same choice among layouts of which it is known whether they fit. */
  function Pick(layouts: seq<Layout>, fits: seq<bool>, best: seq<string>): Layout
    requires |layouts| == |fits|
  {
    if layouts == [] then Layout(best, None, None)
    else if fits[0] then layouts[0]
    else Pick(layouts[1..], fits[1..], if |layouts[0].parts| > |best| then layouts[0].parts else best)
  }

  predicate NoneBefore(fits: seq<bool>, n: nat) {
    n <= |fits| && forall j :: 0 <= j < n ==> !fits[j]
  }

  /** None has more fields than `parts`; it is `best`, or has more and is the first with as many, at k. */
  predicate Leads(layouts: seq<Layout>, best: seq<string>, parts: seq<string>, k: nat) {
    && |best| <= |parts| && (forall j :: 0 <= j < |layouts| ==> |layouts[j].parts| <= |parts|)
    && if |parts| == |best| then parts == best
       else k < |layouts| && layouts[k].parts == parts && forall j :: 0 <= j < k ==> |layouts[j].parts| < |parts|
  }

  lemma LeadsOn(layouts: seq<Layout>, best: seq<string>, next: seq<string>, parts: seq<string>, k: nat)
    returns (longest: nat)
    requires layouts != [] && Leads(layouts[1..], next, parts, k)
    requires next == if |layouts[0].parts| > |best| then layouts[0].parts else best
    ensures Leads(layouts, best, parts, longest)
  {
    longest := if |parts| == |next| then 0 else k + 1;
    forall j | 1 <= j < |layouts| ensures layouts[j] == layouts[1..][j - 1] {
    }
  }

  /** Picked is the first that fits, or if none does, the longest, at k. */
  ghost predicate Picked(layouts: seq<Layout>, fits: seq<bool>, best: seq<string>, layout: Layout, first: nat, k: nat)
    requires |layouts| == |fits|
  {
    && NoneBefore(fits, first)
    && if first < |fits| then fits[first] && layout == layouts[first]
       else layout.token == None && layout.code == None && Leads(layouts, best, layout.parts, k)
  }

  lemma NoneBeforeNext(fits: seq<bool>, n: nat)
    requires fits != [] && !fits[0] && NoneBefore(fits[1..], n)
    ensures NoneBefore(fits, n + 1)
  {
    forall j | 1 <= j < n + 1 ensures !fits[j] {
      assert fits[j] == fits[1..][j - 1];
    }
  }

  lemma {:induction false} PickMeans(layouts: seq<Layout>, fits: seq<bool>, best: seq<string>)
    returns (first: nat, k: nat)
    requires |layouts| == |fits|
    ensures Picked(layouts, fits, best, Pick(layouts, fits, best), first, k)
  {
    if layouts == [] || fits[0] {
      first, k := 0, 0;
    } else {
      var next := if |layouts[0].parts| > |best| then layouts[0].parts else best;
      first, k := PickMeans(layouts[1..], fits[1..], next);
      NoneBeforeNext(fits, first);
      if first == |fits| - 1 {
        k := LeadsOn(layouts, best, next, Pick(layouts, fits, best).parts, k);
      }
      first := first + 1;
    }
  }

  /** What taking out a credential leaves of each candidate. */
  ghost predicate Laid(candidates: seq<seq<string>>, layouts: seq<Layout>, fits: seq<bool>) {
    && |candidates| == |layouts| == |fits|
    && forall j :: 0 <= j < |candidates| ==> layouts[j] == TakeCredential(candidates[j]) && fits[j] == Fits(layouts[j])
  }

  lemma {:induction false} ChooseIsPick(candidates: seq<seq<string>>, layouts: seq<Layout>, fits: seq<bool>,
                                        best: seq<string>)
    requires Laid(candidates, layouts, fits)
    ensures Choose(candidates, best) == Pick(layouts, fits, best)
  {
    if candidates == [] {
    } else {
      var parts := layouts[0].parts;
      ChooseIsPick(candidates[1..], layouts[1..], fits[1..], if |parts| > |best| then parts else best);
    }
  }

  lemma NoneFitsThere(candidates: seq<seq<string>>, layouts: seq<Layout>, fits: seq<bool>, n: nat)
    requires Laid(candidates, layouts, fits) && NoneBefore(fits, n)
    ensures NoneFits(candidates, n)
  {
  }

  lemma LongestThere(candidates: seq<seq<string>>, layouts: seq<Layout>, fits: seq<bool>, parts: seq<string>, k: nat)
    requires candidates != [] && Laid(candidates, layouts, fits) && Leads(layouts, [], parts, k)
    ensures exists k: nat :: Longest(Taken(candidates), |candidates|, k) && parts == Taken(candidates)[k]
  {
    var at := if parts == [] then 0 else k;
    var taken := Taken(candidates);
    forall j | 0 <= j < |taken| ensures taken[j] == layouts[j].parts {
    }
    assert Longest(taken, |candidates|, at) && parts == taken[at];
  }

  lemma FitIsFirst(candidates: seq<seq<string>>, i: nat, layout: Layout)
    requires i < |candidates| && FitsAt(candidates, i) && NoneFits(candidates, i)
    requires layout == TakeCredential(candidates[i])
    ensures FirstFit(candidates, layout)
  {
  }

  lemma ChosenMeans(candidates: seq<seq<string>>)
    requires candidates != []
    ensures FirstFit(candidates, Choose(candidates, [])) || MostFields(candidates, Choose(candidates, []))
  {
    var layouts := seq(|candidates|, i requires 0 <= i < |candidates| => TakeCredential(candidates[i]));
    var fits := seq(|candidates|, i requires 0 <= i < |candidates| => Fits(layouts[i]));
    ChooseIsPick(candidates, layouts, fits, []);
    var first, k := PickMeans(layouts, fits, []);
    NoneFitsThere(candidates, layouts, fits, first);
    if first < |candidates| {
      FitIsFirst(candidates, first, layouts[first]);
    } else {
      LongestThere(candidates, layouts, fits, Choose(candidates, []).parts, k);
    }
  }

  method FirstFitting(candidates: seq<seq<string>>) returns (layout: Layout)
    ensures layout == Choose(candidates, [])
  {
    var best: seq<string> := [];
    for i := 0 to |candidates|
      invariant Choose(candidates, []) == Choose(candidates[i..], best)
    {
      layout := TakeCredential(candidates[i]);
      if Fits(layout) {
        FittingChosen(candidates, i, best);
        return;
      }
      NextTried(candidates, i, best, if |layout.parts| > |best| then layout.parts else best);
      if |layout.parts| > |best| {
        best := layout.parts;
      }
    }
    layout := Layout(best, None, None);
  }

  method SplitPositional(raw: string) returns (layout: Layout)
    ensures FirstFit(Candidates(raw), layout) || MostFields(Candidates(raw), layout)
    ensures layout == Choose(Candidates(raw), [])
  {
    ChosenMeans(Candidates(raw));
    layout := FirstFitting(Candidates(raw));
  }

  // ----- From fields to a point -----

  function DotForComma(s: string): string { seq(|s|, i requires 0 <= i < |s| => if s[i] == ',' then '.' else s[i]) }

  /** The time of a fix, in seconds or milliseconds; nothing when the tracker's clock is off. */
  function ReadTime(s: string, now: real): Option<int> {
    if s == "" || !AllDigits(s) then None else
      var seconds := if Value(s) > MILLISECONDS_FROM then Value(s) / 1000 else Value(s);
      if -(MAX_SKEW as real) <= seconds as real - now <= MAX_SKEW as real then Some(seconds) else None
  }

  function BuildPoint(device: string, lat: string, lon: string, sats: string, speed: string, time: string,
                      token: Option<string>, code: Option<string>, now: real, asFloat: string -> Option<real>): Parsed {
    if !IsDevice(device) then Refused(BadFormat) else
    var (x, y) := (ReadCoordinate(lat), ReadCoordinate(lon));
    if x.None? || y.None? then Refused(BadFormat)
    else if !WithinDegrees(x.value, 90) || !WithinDegrees(y.value, 180) then Refused(BadFormat)
    else if !IsCount(sats) || Value(sats) > MAX_SATS then Refused(BadFormat)
    else if x.value.digits == 0 && y.value.digits == 0 then Refused(NoFix)
    else if Value(sats) < MIN_SATS then Refused(NoFix)
    else
      var v := if speed == "" then None else asFloat(DotForComma(speed));
      if speed != "" && v.None? then Refused(BadFormat)
      else
        var sane := if v.Some? && 0.0 <= v.value <= MAX_SPEED as real then v else None;
        Accepted(Point(device, Quantize(x.value, 6), Quantize(y.value, 6), Value(sats), sane,
                       ReadTime(time, now), token, code))
  }

  function DropMark(s: string): string { if s != [] && s[0] == '\U{FEFF}' then DropMark(s[1..]) else s }

  predicate EndsInName(s: string) {
    s != [] && var c := s[|s| - 1];
      if IsSpace(c) then EndsInName(s[..|s| - 1]) else 'A' <= c <= 'Z' || 'a' <= c <= 'z' || c == '_'
  }

  /** A key=value pair stands somewhere in the text. */
  predicate HasAssignment(s: string) { exists i :: 0 <= i < |s| && s[i] == '=' && EndsInName(s[..i]) }

  predicate HasPrefix(s: string) {
    |s| >= 4 && ToUpper(s[0]) == 'B' && ToUpper(s[1]) == 'O' && s[2] == '1' && s[3] == ','
  }

  function Parse(line: string, now: real, asFloat: string -> Option<real>): Parsed {
    var raw := DropMark(Strip(line));
    if raw == "" || |raw| > MAX_MESSAGE then Refused(BadFormat)
    else if raw[0] == '[' then Refused(BadFormat)
    else if raw[0] == '{' || HasAssignment(raw) then Mapping
    else ParsePositional(if HasPrefix(raw) then raw[4..] else raw, now, asFloat)
  }

  function ParsePositional(raw: string, now: real, asFloat: string -> Option<real>): Parsed {
    var layout := Choose(Candidates(raw), []);
    var parts := layout.parts;
    if |parts| < 3 then Refused(BadFormat)
    else if |parts| == 3 then
      BuildPoint(parts[0], parts[1], parts[2], Numeral(MIN_SATS), "", "", layout.token, layout.code, now, asFloat)
    else
      BuildPoint(parts[0], parts[1], parts[2], parts[3], if |parts| > 4 then parts[4] else "",
                 if |parts| > 5 then parts[5] else "", layout.token, layout.code, now, asFloat)
  }

  // ----- Exactly what is refused -----

  lemma {:induction false} WholePartStops(whole: string, rest: string)
    requires (forall c <- whole :: !IsPoint(c)) && (rest == "" || IsPoint(rest[0]))
    ensures WholePart(whole + rest) == whole
  {
    if whole == "" {
      assert whole + rest == rest;
    } else {
      assert (whole + rest)[1..] == whole[1..] + rest;
      WholePartStops(whole[1..], rest);
    }
  }

  lemma {:induction false} WholePartMeans(s: string)
    ensures var w := WholePart(s);
      w <= s && (forall c <- w :: !IsPoint(c)) && (|w| < |s| ==> IsPoint(s[|w|]))
  {
    if s == [] || IsPoint(s[0]) {
    } else {
      WholePartMeans(s[1..]);
    }
  }

  /** One to three digits, and optionally a point or comma with one to nine more. */
  predicate WrittenDigits(text: string, whole: string, point: string, fraction: string) {
    && text == whole + point + fraction
    && 1 <= |whole| <= 3 && AllDigits(whole)
    && AllDigits(fraction)
    && if point == "" then fraction == "" else |point| == 1 && IsPoint(point[0]) && 1 <= |fraction| <= 9
  }

  /** The texts of coordinates: such digits after an optional sign. */
  predicate Written(s: string, sign: string, whole: string, point: string, fraction: string) {
    s == sign + (whole + point + fraction) && sign in {"", "+", "-"}
    && WrittenDigits(whole + point + fraction, whole, point, fraction)
  }

  lemma DigitsRead(text: string, whole: string, point: string, fraction: string)
    requires WrittenDigits(text, whole, point, fraction)
    ensures DigitsOf(text) == Some((whole + fraction, |fraction|))
  {
    var rest := point + fraction;
    assert text == whole + rest;
    WholePartStops(whole, rest);
    assert text[|whole|..] == rest;
    if point == "" {
      assert whole + fraction == whole;
    } else {
      assert rest[1..] == fraction;
    }
  }

  lemma DigitsWritten(text: string) returns (whole: string, point: string, fraction: string)
    requires DigitsOf(text).Some?
    ensures WrittenDigits(text, whole, point, fraction)
  {
    whole := WholePart(text);
    WholePartMeans(text);
    var rest := text[|whole|..];
    assert text == whole + rest;
    if rest == [] {
      point, fraction := "", "";
    } else {
      point, fraction := [rest[0]], rest[1..];
      assert rest[0] == text[|whole|] && rest == point + fraction;
    }
    assert text == whole + point + fraction;
  }

  lemma SignSplit(s: string, sign: string, text: string)
    requires s == sign + text && sign in {"", "+", "-"} && text != "" && IsDigit(text[0])
    ensures Unsigned(s) == text && s != "" && (s[0] == '-' <==> sign == "-")
  {
  }

  lemma ReadFrom(s: string, digits: string, scale: nat)
    requires DigitsOf(Unsigned(s)) == Some((digits, scale))
    ensures AllDigits(digits) && ReadCoordinate(s) == Some(Signed(s, digits, scale))
  {
  }

  lemma SignedMeans(s: string, negative: bool, digits: string, scale: nat, n: nat)
    requires s != "" && (s[0] == '-' <==> negative) && AllDigits(digits) && n == Value(digits)
    ensures Signed(s, digits, scale) == Decimal(if negative then -(n as int) else n, scale)
  {
  }

  /** Such a text is read as what it says. */
  lemma WrittenIsRead(s: string, sign: string, whole: string, point: string, fraction: string, n: nat)
    requires Written(s, sign, whole, point, fraction) && AllDigits(whole + fraction) && n == Value(whole + fraction)
    ensures ReadCoordinate(s) == Some(Decimal(if sign == "-" then -(n as int) else n, |fraction|))
  {
    var text := whole + point + fraction;
    assert whole[0] in whole && text[0] == whole[0];
    SignSplit(s, sign, text);
    DigitsRead(text, whole, point, fraction);
    ReadFrom(s, whole + fraction, |fraction|);
    SignedMeans(s, sign == "-", whole + fraction, |fraction|, n);
  }

  lemma SignedText(s: string, sign: string, text: string, whole: string, point: string, fraction: string)
    requires s == sign + text && sign in {"", "+", "-"} && WrittenDigits(text, whole, point, fraction)
    ensures Written(s, sign, whole, point, fraction)
  {
  }

  lemma SignTaken(s: string) returns (sign: string)
    ensures sign in {"", "+", "-"} && s == sign + Unsigned(s)
  {
    sign := if s != "" && (s[0] == '-' || s[0] == '+') then [s[0]] else "";
  }

  /** And no other text is. */
  lemma ReadIsWritten(s: string) returns (sign: string, whole: string, point: string, fraction: string)
    requires IsCoordinate(s)
    ensures Written(s, sign, whole, point, fraction)
  {
    sign := SignTaken(s);
    whole, point, fraction := DigitsWritten(Unsigned(s));
    SignedText(s, sign, Unsigned(s), whole, point, fraction);
  }

  lemma CharsStand(a: string, b: string, c: string)
    ensures (a != "" ==> a[0] in a + b + c) && (b != "" ==> b[0] in a + b + c)
  {
    assert b != "" ==> (a + b + c)[|a|] == b[0];
  }

  lemma SignStands(s: string, sign: string, rest: string)
    requires s == sign + rest
    ensures sign != "" ==> sign[0] in s
  {
    CharsStand("", sign, rest);
    assert "" + sign + rest == s;
  }

  lemma PointStands(s: string, before: string, point: string, rest: string)
    requires s == before + (point + rest)
    ensures point != "" ==> point[0] in s
  {
    CharsStand(before, point, rest);
    assert before + point + rest == s;
  }

  lemma WrittenShape(s: string, sign: string, whole: string, point: string, fraction: string)
    requires Written(s, sign, whole, point, fraction)
    ensures |s| <= 14 && (AllDigits(s) ==> |s| <= 3)
  {
    SignStands(s, sign, whole + point + fraction);
    assert s == (sign + whole) + (point + fraction);
    PointStands(s, sign + whole, point, fraction);
  }

  lemma CoordinateShape(s: string)
    ensures IsCoordinate(s) ==> |s| <= 14 && (AllDigits(s) ==> |s| <= 3)
  {
    if IsCoordinate(s) {
      var sign, whole, point, fraction := ReadIsWritten(s);
      WrittenShape(s, sign, whole, point, fraction);
    }
  }

  /** Which fields are well formed, and which of those tell a fix. */
  predicate WellFormed(device: string, lat: string, lon: string, sats: string) {
    && IsDevice(device)
    && IsCoordinate(lat) && IsCoordinate(lon) && IsCount(sats)
    && (var (x, y) := (ReadCoordinate(lat).value, ReadCoordinate(lon).value);
        Magnitude(x.digits) <= 90 * Power10(x.scale) && Magnitude(y.digits) <= 180 * Power10(y.scale))
    && Value(sats) <= 64
  }

  predicate HasFix(lat: string, lon: string, sats: string)
    requires IsCoordinate(lat) && IsCoordinate(lon) && AllDigits(sats)
  {
    Value(sats) >= 3 && !(ReadCoordinate(lat).value.digits == 0 && ReadCoordinate(lon).value.digits == 0)
  }

  /** In millionths: exact up to six places, else the nearest, and from the middle the even one. */
  predicate RoundedTo(micro: int, x: Decimal) {
    if x.scale <= 6 then micro == x.digits * Power10(6 - x.scale)
    else NearestEven(micro, x.digits, Power10(x.scale - 6))
  }

  lemma QuantizeIsRounded(x: Decimal)
    ensures RoundedTo(Quantize(x, 6), x)
  {
    QuantizeNearest(x, 6);
  }

  lemma BadlyFormed(device: string, lat: string, lon: string, sats: string, speed: string, time: string,
                    token: Option<string>, code: Option<string>, now: real, asFloat: string -> Option<real>)
    requires !WellFormed(device, lat, lon, sats)
    ensures BuildPoint(device, lat, lon, sats, speed, time, token, code, now, asFloat) == Refused(BadFormat)
  {
  }

  lemma WithoutFix(device: string, lat: string, lon: string, sats: string, speed: string, time: string,
                   token: Option<string>, code: Option<string>, now: real, asFloat: string -> Option<real>)
    requires WellFormed(device, lat, lon, sats) && !HasFix(lat, lon, sats)
    ensures BuildPoint(device, lat, lon, sats, speed, time, token, code, now, asFloat) == Refused(NoFix)
  {
  }

  lemma WithFix(device: string, lat: string, lon: string, sats: string, speed: string, time: string,
                token: Option<string>, code: Option<string>, now: real, asFloat: string -> Option<real>)
    requires WellFormed(device, lat, lon, sats) && HasFix(lat, lon, sats)
    ensures var v := if speed == "" then None else asFloat(DotForComma(speed));
      BuildPoint(device, lat, lon, sats, speed, time, token, code, now, asFloat)
        == if speed != "" && v.None? then Refused(BadFormat)
           else Accepted(Point(device, Quantize(ReadCoordinate(lat).value, 6), Quantize(ReadCoordinate(lon).value, 6),
                               Value(sats), if v.Some? && 0.0 <= v.value <= 300.0 then v else None,
                               ReadTime(time, now), token, code))
  {
  }

  lemma PlaceRounded(p: Point, x: Decimal, y: Decimal)
    requires p.lat == Quantize(x, 6) && p.lon == Quantize(y, 6)
    ensures RoundedTo(p.lat, x) && RoundedTo(p.lon, y)
  {
    QuantizeIsRounded(x);
    QuantizeIsRounded(y);
  }

  /** Whatever the fields: badly formed ones are refused first, then those without a fix, then a speed that is no
      number; what is left makes a point of the rounded coordinates, with a speed from 0 to 300 km/h or none. */
  lemma BuiltExactly(device: string, lat: string, lon: string, sats: string, speed: string, time: string,
                     token: Option<string>, code: Option<string>, now: real, asFloat: string -> Option<real>)
    ensures var r := BuildPoint(device, lat, lon, sats, speed, time, token, code, now, asFloat);
      var v := if speed == "" then None else asFloat(DotForComma(speed));
      if !WellFormed(device, lat, lon, sats) then r == Refused(BadFormat)
      else if !HasFix(lat, lon, sats) then r == Refused(NoFix)
      else if speed != "" && v.None? then r == Refused(BadFormat)
      else
        && r.Accepted? && r.point.device == device && r.point.sats == Value(sats)
        && RoundedTo(r.point.lat, ReadCoordinate(lat).value) && RoundedTo(r.point.lon, ReadCoordinate(lon).value)
        && r.point.speed == (if v.Some? && 0.0 <= v.value <= 300.0 then v else None)
        && r.point.recordedAt == ReadTime(time, now) && r.point.token == token && r.point.code == code
  {
    if !WellFormed(device, lat, lon, sats) {
      BadlyFormed(device, lat, lon, sats, speed, time, token, code, now, asFloat);
    } else if !HasFix(lat, lon, sats) {
      WithoutFix(device, lat, lon, sats, speed, time, token, code, now, asFloat);
    } else {
      WithFix(device, lat, lon, sats, speed, time, token, code, now, asFloat);
      var r := BuildPoint(device, lat, lon, sats, speed, time, token, code, now, asFloat);
      if r.Accepted? {
        PlaceRounded(r.point, ReadCoordinate(lat).value, ReadCoordinate(lon).value);
      }
    }
  }

  /** A text that blanks around it do not change. */
  predicate Trim(text: string) {
    text == "" || (!IsSpace(text[0]) && !IsSpace(text[|text| - 1]) && text[0] != '\U{FEFF}')
  }

  predicate Marks(s: string) { forall i :: 0 <= i < |s| ==> s[i] == '\U{FEFF}' }

  lemma {:induction false} MarksDropped(marks: string, text: string)
    requires Marks(marks) && (text == "" || text[0] != '\U{FEFF}')
    ensures DropMark(marks + text) == text
  {
    if marks == "" {
      assert marks + text == text;
    } else {
      assert (marks + text)[1..] == marks[1..] + text;
      MarksDropped(marks[1..], text);
    }
  }

  lemma MarkedEnds(marks: string, text: string)
    requires Marks(marks) && Trim(text)
    ensures var s := marks + text; s == "" || (!IsSpace(s[0]) && !IsSpace(s[|s| - 1]))
  {
    var s := marks + text;
    if s != "" {
      assert marks != "" ==> s[0] == marks[0];
      assert text == "" ==> s[|s| - 1] == marks[|marks| - 1];
    }
  }

  /** Blanks around a line and byte order marks before it do not matter, and a line that is empty, over 2048
      characters or a list is refused. */
  lemma BlanksIgnored(left: string, marks: string, text: string, right: string, now: real,
                      asFloat: string -> Option<real>)
    requires Blank(left) && Blank(right) && Trim(text) && Marks(marks)
    ensures Parse(left + (marks + text) + right, now, asFloat) == Parse(text, now, asFloat)
    ensures text == "" || |text| > 2048 || text[0] == '[' ==> Parse(text, now, asFloat) == Refused(BadFormat)
  {
    MarkedEnds(marks, text);
    StripUnique(left, marks + text, right);
    MarksDropped(marks, text);
    StripUnique("", text, "");
    MarksDropped("", text);
    assert "" + text + "" == text && "" + text == text;
  }

  // ----- What is handed over -----

  /** At i a name ends, and after it come only blanks up to j. */
  predicate Names(s: string, i: nat, j: nat) {
    i < j <= |s| && ('A' <= s[i] <= 'Z' || 'a' <= s[i] <= 'z' || s[i] == '_') && Blank(s[i + 1..j])
  }

  lemma {:induction false} EndsInNameMeans(s: string)
    ensures EndsInName(s) <==> exists i :: Names(s, i, |s|)
  {
    if s != "" && IsSpace(s[|s| - 1]) {
      var t := s[..|s| - 1];
      EndsInNameMeans(t);
      forall i | 0 <= i < |t| ensures Names(t, i, |t|) <==> Names(s, i, |s|) {
        assert s[i + 1..|s|] == t[i + 1..|t|] + [s[|s| - 1]];
      }
      assert !Names(s, |s| - 1, |s|);
    } else if s != "" {
      forall i | 0 <= i < |s| - 1 ensures !Names(s, i, |s|) {
        assert s[|s| - 1] in s[i + 1..];
      }
      assert s[|s|..] == "";
      assert EndsInName(s) <==> Names(s, |s| - 1, |s|);
    }
  }

  lemma NamedBefore(s: string, j: nat)
    requires j < |s|
    ensures EndsInName(s[..j]) <==> exists i :: Names(s, i, j)
  {
    EndsInNameMeans(s[..j]);
    forall i: nat | i < j ensures Names(s[..j], i, j) <==> Names(s, i, j) {
      assert s[..j][i + 1..] == s[i + 1..j];
    }
  }

  /** A line goes to the reader of JSON and of pairs exactly when it starts with a brace or has a name, with or
      without blanks, before an equals sign. */
  lemma HandedOver(text: string, now: real, asFloat: string -> Option<real>)
    requires Trim(text) && 1 <= |text| <= 2048 && text[0] != '['
    ensures Parse(text, now, asFloat) == Mapping
      <==> text[0] == '{' || exists j :: 0 <= j < |text| && text[j] == '=' && exists i :: Names(text, i, j)
  {
    StripUnique("", text, "");
    assert "" + text + "" == text;
    forall j | 0 <= j < |text| ensures EndsInName(text[..j]) <==> exists i :: Names(text, i, j) {
      NamedBefore(text, j);
    }
  }

  // ----- Whatever comes in -----

  predicate IsValid(p: Point, now: real) {
    && IsDevice(p.device)
    && -90 * DEGREE <= p.lat <= 90 * DEGREE && -180 * DEGREE <= p.lon <= 180 * DEGREE
    && MIN_SATS <= p.sats <= MAX_SATS
    && (p.speed.Some? ==> 0.0 <= p.speed.value <= MAX_SPEED as real)
    && (p.recordedAt.Some? ==> -(MAX_SKEW as real) <= p.recordedAt.value as real - now <= MAX_SKEW as real)
    && (p.token.None? || p.code.None?)
    && (p.token.Some? ==> IsToken(p.token.value)) && (p.code.Some? ==> IsCode(p.code.value))
  }

  predicate SoundCredential(token: Option<string>, code: Option<string>) {
    && (token.None? || code.None?)
    && (token.Some? ==> IsToken(token.value)) && (code.Some? ==> IsCode(code.value))
  }

  lemma {:induction false} ChosenIsSound(candidates: seq<seq<string>>, best: seq<string>)
    ensures SoundCredential(Choose(candidates, best).token, Choose(candidates, best).code)
  {
    if candidates != [] && !Fits(TakeCredential(candidates[0])) {
      var parts := TakeCredential(candidates[0]).parts;
      ChosenIsSound(candidates[1..], if |parts| > |best| then parts else best);
    }
  }

  lemma PowerOfMicro()
    ensures Power10(6) == DEGREE
  {
    assert Power10(3) == 1000;
    assert Power10(6) == 1000 * Power10(3);
  }

  lemma BuiltIsValid(device: string, lat: string, lon: string, sats: string, speed: string, time: string,
                     token: Option<string>, code: Option<string>, now: real, asFloat: string -> Option<real>)
    requires SoundCredential(token, code)
    ensures var r := BuildPoint(device, lat, lon, sats, speed, time, token, code, now, asFloat);
      r.Accepted? ==> IsValid(r.point, now)
  {
    var (x, y) := (ReadCoordinate(lat), ReadCoordinate(lon));
    if x.Some? && y.Some? && WithinDegrees(x.value, 90) && WithinDegrees(y.value, 180) {
      QuantizeBound(x.value, 6, 90);
      QuantizeBound(y.value, 6, 180);
      PowerOfMicro();
    }
  }

  /** Any text whatever is refused, handed over, or parsed to a point within all bounds. */
  lemma ParsedIsValid(line: string, now: real, asFloat: string -> Option<real>)
    ensures var r := Parse(line, now, asFloat); r.Accepted? ==> IsValid(r.point, now)
  {
    var raw := DropMark(Strip(line));
    var text := if HasPrefix(raw) then raw[4..] else raw;
    var layout := Choose(Candidates(text), []);
    ChosenIsSound(Candidates(text), []);
    var parts := layout.parts;
    if |parts| == 3 {
      BuiltIsValid(parts[0], parts[1], parts[2], Numeral(MIN_SATS), "", "", layout.token, layout.code, now, asFloat);
    } else if |parts| > 3 {
      BuiltIsValid(parts[0], parts[1], parts[2], parts[3], if |parts| > 4 then parts[4] else "",
                   if |parts| > 5 then parts[5] else "", layout.token, layout.code, now, asFloat);
    }
  }
}
