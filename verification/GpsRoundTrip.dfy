/** What a tracker or its emulator prints, the receiver reads back exactly. */
module GpsRoundTrip {
  import opened Common
  import opened Text
  import opened Numerals
  import opened GpsLines

  datatype Credential = NoCredential | Token(text: string) | Code(text: string)

  /** A speed in kilometres an hour, with any number of decimals up to twenty. */
  datatype Speed = Speed(whole: nat, fraction: string)

  predicate PrintableSpeed(v: Speed) { AllDigits(v.fraction) && |v.fraction| <= 20 && |Numeral(v.whole)| <= 20 }

  function SpeedValue(v: Speed): real
    requires AllDigits(v.fraction)
  {
    v.whole as real + Value(v.fraction) as real / Power10(|v.fraction|) as real
  }

  function SpeedText(v: Speed, point: char): string {
    Numeral(v.whole) + if v.fraction == "" then "" else [point] + v.fraction
  }

  /** One fix as a tracker knows it; coordinates in millionths of a degree, time in seconds. */
  datatype Reading = Reading(device: string, credential: Credential, lat: int, lon: int, sats: nat,
                             speed: Option<Speed>, time: Option<nat>)

  /** Readings the printer can print, whether or not they make sense. */
  predicate Printable(r: Reading) {
    && 1 <= |r.device| <= 32 && (forall c <- r.device :: IsDeviceChar(c))
    && (r.credential.Token? ==> 16 <= |r.credential.text| <= 64 && forall c <- r.credential.text :: IsHexDigit(c))
    && (r.credential.Code? ==> 6 <= |r.credential.text| <= 10 && AllDigits(r.credential.text))
    && Magnitude(r.lat) < 1000 * DEGREE && Magnitude(r.lon) < 1000 * DEGREE
    && r.sats < 1000
    && (r.speed.Some? ==> PrintableSpeed(r.speed.value))
    && (r.time.Some? ==> r.speed.Some? && |Numeral(r.time.value)| <= 20)
  }

  /** A coordinate with exactly six decimals. */
  function Coordinate(x: int, point: char): string {
    (if x < 0 then "-" else "") + (Numeral(Magnitude(x) / DEGREE) + [point] + Padded(Magnitude(x) % DEGREE, 6))
  }

  function CredentialFields(c: Credential): seq<string> { if c.NoCredential? then [] else [c.text] }

  function SpeedField(r: Reading, point: char): string { if r.speed.Some? then SpeedText(r.speed.value, point) else "" }

  function TimeField(r: Reading): string { if r.time.Some? then Numeral(r.time.value) else "" }

  function TailFields(r: Reading, point: char): seq<string> {
    [Numeral(r.sats)] + (if r.speed.Some? then [SpeedField(r, point)] else [])
    + if r.time.Some? then [TimeField(r)] else []
  }

  function FieldsOf(r: Reading, point: char): seq<string> {
    [r.device] + CredentialFields(r.credential)
    + ([Coordinate(r.lat, point), Coordinate(r.lon, point)] + TailFields(r, point))
  }

  /** The line the emulator prints: positional by default, the prefixed comma form with a token. */
  function Line(r: Reading): string {
    if r.credential.Token? then "BO1," + Join(FieldsOf(r, '.'), ',') else Join(FieldsOf(r, '.'), ' ')
  }

  /** Seconds, unless the number is too large for them and means milliseconds; nothing when that is more than a week
      off. */
  function ClockOf(time: Option<nat>, now: real): Option<int> {
    if time.None? then None else
      var seconds := if time.value > 10_000_000_000 then time.value / 1000 else time.value;
      if -604_800.0 <= seconds as real - now <= 604_800.0 then Some(seconds) else None
  }

  /** The point the receiver should make of it: a speed above 300 km/h is dropped. */
  function PointOf(r: Reading, now: real): Point
    requires Printable(r)
  {
    Point(r.device, r.lat, r.lon, r.sats,
          if r.speed.Some? && SpeedValue(r.speed.value) <= 300.0 then Some(SpeedValue(r.speed.value)) else None,
          ClockOf(r.time, now), TokenOf(r.credential), CodeOf(r.credential))
  }

  /** The answer to a printed reading: refused when out of range, without a fix at zero coordinates or with fewer than
      three satellites, and otherwise its point. */
  function Answer(r: Reading, now: real): Parsed
    requires Printable(r)
  {
    if Magnitude(r.lat) > 90 * DEGREE || Magnitude(r.lon) > 180 * DEGREE || r.sats > 64 then Refused(BadFormat)
    else if (r.lat == 0 && r.lon == 0) || r.sats < 3 then Refused(NoFix)
    else Accepted(PointOf(r, now))
  }

  /** The float reader understands plain decimals; nothing else is asked of it. */
  ghost predicate ReadsDecimals(asFloat: string -> Option<real>) {
    forall v: Speed :: AllDigits(v.fraction) ==> asFloat(SpeedText(v, '.')) == Some(SpeedValue(v))
  }

  // ----- Fields -----

  lemma DegreesShort(x: int)
    requires Magnitude(x) < 1000 * DEGREE
    ensures |Numeral(Magnitude(x) / DEGREE)| <= 3
  {
    assert Power10(3) == 1000;
    NumeralLength(Magnitude(x) / DEGREE, 3);
  }

  lemma MagnitudeRead(m: nat)
    ensures AllDigits(Numeral(m / DEGREE) + Padded(m % DEGREE, 6))
    ensures Value(Numeral(m / DEGREE) + Padded(m % DEGREE, 6)) == m
  {
    var (whole, rest) := (m / DEGREE, m % DEGREE);
    ValueConcat(Numeral(whole), Padded(rest, 6));
    NumeralRead(whole);
    PaddedRead(rest, 6);
    PowerOfMicro();
    assert rest % DEGREE == rest;
  }

  lemma CoordinateWritten(x: int, point: char)
    requires Magnitude(x) < 1000 * DEGREE && IsPoint(point)
    ensures Written(Coordinate(x, point), if x < 0 then "-" else "", Numeral(Magnitude(x) / DEGREE), [point],
                    Padded(Magnitude(x) % DEGREE, 6))
  {
    DegreesShort(x);
    var (sign, whole, fraction) :=
      (if x < 0 then "-" else "", Numeral(Magnitude(x) / DEGREE), Padded(Magnitude(x) % DEGREE, 6));
    assert Coordinate(x, point) == sign + (whole + [point] + fraction);
  }

  lemma CoordinateRead(x: int, point: char)
    requires Magnitude(x) < 1000 * DEGREE && IsPoint(point)
    ensures ReadCoordinate(Coordinate(x, point)) == Some(Decimal(x, 6))
  {
    var (whole, fraction) := (Numeral(Magnitude(x) / DEGREE), Padded(Magnitude(x) % DEGREE, 6));
    CoordinateWritten(x, point);
    MagnitudeRead(Magnitude(x));
    WrittenIsRead(Coordinate(x, point), if x < 0 then "-" else "", whole, [point], fraction, Magnitude(x));
  }

  lemma CredentialIsNoCoordinate(s: string)
    requires IsCode(s) || IsToken(s)
    ensures !IsCoordinate(s) && !(IsCode(s) && IsToken(s))
  {
    CoordinateShape(s);
  }

  /** Letters, digits and signs of printed fields. */
  predicate InAlphabet(s: string, point: char) { forall c <- s :: IsDeviceChar(c) || c == point }

  predicate GoodField(s: string, point: char) { 1 <= |s| <= 64 && InAlphabet(s, point) }

  lemma NumeralField(n: nat, point: char)
    requires |Numeral(n)| <= 20
    ensures GoodField(Numeral(n), point)
  {
  }

  lemma CoordinateField(x: int, point: char)
    requires Magnitude(x) < 1000 * DEGREE && IsPoint(point)
    ensures GoodField(Coordinate(x, point), point)
  {
    DegreesShort(x);
  }

  lemma NotBelow(n: real, d: real)
    requires n >= 0.0 && d > 0.0
    ensures n / d >= 0.0
  {
  }

  lemma SpeedIsGood(v: Speed, point: char)
    requires PrintableSpeed(v) && IsPoint(point)
    ensures var s := SpeedText(v, point); GoodField(s, point) && IsDigit(s[|s| - 1])
  {
    var s := SpeedText(v, point);
    var last := if v.fraction == "" then Numeral(v.whole) else v.fraction;
    assert last[|last| - 1] in last && s[|s| - 1] == last[|last| - 1];
  }

  lemma SatsField(n: nat, point: char)
    requires n < 1000
    ensures GoodField(Numeral(n), point)
  {
    assert Power10(3) == 1000;
    NumeralLength(n, 3);
  }

  lemma FieldsAreGood(r: Reading, point: char)
    requires Printable(r) && IsPoint(point)
    ensures forall f <- FieldsOf(r, point) :: GoodField(f, point)
    ensures 4 <= |FieldsOf(r, point)| <= 7
  {
    CoordinateField(r.lat, point);
    CoordinateField(r.lon, point);
    SatsField(r.sats, point);
    if r.speed.Some? { SpeedIsGood(r.speed.value, point); }
    if r.time.Some? { NumeralField(r.time.value, point); }
  }

  // ----- Lines -----

  lemma OneTimesMore(n: nat, k: nat)
    ensures (n + 1) * k == n * k + k
  {
  }

  lemma {:induction false} JoinLength(fields: seq<string>, sep: char, longest: nat)
    requires forall f <- fields :: |f| <= longest
    ensures |Join(fields, sep)| <= |fields| * (longest + 1)
  {
    if |fields| <= 1 {
    } else {
      JoinLength(fields[1..], sep, longest);
      OneTimesMore(|fields| - 1, longest + 1);
    }
  }

  lemma JoinEndsOnce(fields: seq<string>, sep: char, rest: string)
    requires |fields| > 1 && rest == Join(fields[1..], sep) && fields[0] != "" && rest != ""
    ensures var s := Join(fields, sep); s != "" && s[0] == fields[0][0] && s[|s| - 1] == rest[|rest| - 1]
  {
    assert Join(fields, sep) == fields[0] + [sep] + rest;
  }

  lemma {:induction false} JoinEnds(fields: seq<string>, sep: char)
    requires fields != [] && forall i :: 0 <= i < |fields| ==> fields[i] != ""
    ensures var s := Join(fields, sep);
      s != "" && s[0] == fields[0][0] && s[|s| - 1] == fields[|fields| - 1][|fields[|fields| - 1]| - 1]
  {
    if |fields| == 1 {
    } else {
      var rest := fields[1..];
      JoinEnds(rest, sep);
      assert rest[|rest| - 1] == fields[|fields| - 1];
      JoinEndsOnce(fields, sep, Join(rest, sep));
    }
  }

  predicate IsSeparator(c: char) { c == ' ' || c == '\t' || c == ';' || c == ',' }

  /** Fields that a separator keeps apart. */
  predicate Separable(fields: seq<string>, sep: char, point: char) {
    && 2 <= |fields| <= 8
    && IsSeparator(sep) && IsPoint(point) && (sep == ',' ==> point == '.')
    && forall f <- fields :: GoodField(f, point)
  }

  lemma JoinedChars(fields: seq<string>, sep: char, point: char, c: char)
    requires Separable(fields, sep, point) && c in Join(fields, sep)
    ensures IsDeviceChar(c) || c == point || c == sep
  {
    JoinMembers(fields, sep, c);
  }

  lemma FieldsBack(fields: seq<string>, sep: char, point: char, isSep: char -> bool)
    requires Separable(fields, sep, point) && isSep(sep)
    requires forall c: char :: IsDeviceChar(c) || c == point ==> !isSep(c)
    ensures Fields(Join(fields, sep), isSep) == fields
  {
    forall f | f in fields ensures Free(f, isSep) && Plain(f) {
      assert GoodField(f, point);
    }
    SplitJoin(fields, sep, isSep);
    TidySame(fields);
  }

  lemma SeparatorStands(fields: seq<string>, sep: char)
    requires |fields| >= 2
    ensures sep in Join(fields, sep)
  {
    assert Join(fields, sep)[|fields[0]|] == sep;
  }

  lemma NoOther(fields: seq<string>, sep: char, point: char, other: char)
    requires Separable(fields, sep, point) && other != sep && other != point && !IsDeviceChar(other)
    ensures other !in Join(fields, sep)
  {
    if other in Join(fields, sep) {
      JoinedChars(fields, sep, point, other);
    }
  }

  lemma CommaLineIsOneWord(fields: seq<string>, point: char)
    requires Separable(fields, ',', point)
    ensures Fields(Join(fields, ','), c => IsSpace(c)) == [Join(fields, ',')]
  {
    var raw := Join(fields, ',');
    forall c | c in raw ensures !IsSpace(c) {
      JoinedChars(fields, ',', point, c);
    }
    SeparatorStands(fields, ',');
    SplitNothing(raw, c => IsSpace(c));
    TidySame([raw]);
  }

  lemma FirstChosen(candidates: seq<seq<string>>, fields: seq<string>)
    requires candidates != [] && candidates[0] == fields && Fits(TakeCredential(fields))
    ensures Choose(candidates, []) == TakeCredential(fields)
  {
  }

  lemma SecondChosen(candidates: seq<seq<string>>, word: string, fields: seq<string>)
    requires |candidates| > 1 && candidates[0] == [word] && candidates[1] == fields && Fits(TakeCredential(fields))
    ensures Choose(candidates, []) == TakeCredential(fields)
  {
    assert !Fits(TakeCredential([word]));
    assert candidates[1..][0] == fields;
  }

  lemma CommaCandidates(fields: seq<string>, point: char)
    requires Separable(fields, ',', point)
    ensures Candidates(Join(fields, ',')) == [[Join(fields, ',')], fields, fields]
  {
    NoOther(fields, ',', point, ';');
    NoOther(fields, ',', point, '\t');
    CommaLineIsOneWord(fields, point);
    FieldsBack(fields, ',', point, c => c == ',');
    FieldsBack(fields, ',', point, c => IsSpace(c) || c == ',' || c == ';');
  }

  /** Whatever the separator, the first candidate that fits is the one with the printed fields. */
  lemma RightCandidate(fields: seq<string>, sep: char, point: char)
    requires Separable(fields, sep, point) && Fits(TakeCredential(fields))
    ensures Choose(Candidates(Join(fields, sep)), []) == TakeCredential(fields)
  {
    var raw := Join(fields, sep);
    SeparatorStands(fields, sep);
    if sep == ',' {
      CommaCandidates(fields, point);
      SecondChosen(Candidates(raw), raw, fields);
    } else {
      if sep == ';' {
        FieldsBack(fields, sep, point, c => c == ';');
      } else if sep == '\t' {
        NoOther(fields, sep, point, ';');
        FieldsBack(fields, sep, point, c => c == '\t');
      } else {
        NoOther(fields, sep, point, ';');
        NoOther(fields, sep, point, '\t');
        FieldsBack(fields, sep, point, c => IsSpace(c));
      }
      FirstChosen(Candidates(raw), fields);
    }
  }

  lemma FitsWhen(device: string, rest: seq<string>, token: Option<string>, code: Option<string>)
    requires |rest| >= 2 && IsCoordinate(rest[0]) && IsCoordinate(rest[1])
    ensures Fits(Layout([device] + rest, token, code))
  {
  }

  lemma NoneTaken(device: string, rest: seq<string>)
    requires |rest| >= 2 && IsCoordinate(rest[0])
    ensures TakeCredential([device] + rest) == Layout([device] + rest, None, None)
  {
  }

  lemma CodeTaken(device: string, code: string, rest: seq<string>)
    requires |rest| >= 3 && IsCode(code)
    ensures TakeCredential([device, code] + rest) == Layout([device] + rest, None, Some(code))
  {
    CredentialIsNoCoordinate(code);
    var parts := [device, code] + rest;
    assert parts[..1] + parts[2..] == [device] + rest;
  }

  lemma TokenTaken(device: string, token: string, rest: seq<string>)
    requires |rest| >= 3 && IsToken(token)
    ensures TakeCredential([device, token] + rest) == Layout([device] + rest, Some(token), None)
  {
    CredentialIsNoCoordinate(token);
    var parts := [device, token] + rest;
    assert |parts| >= 5 && parts[1] == token;
    assert parts[..1] == [device] && parts[2..] == rest;
  }

  function TokenOf(c: Credential): Option<string> { if c.Token? then Some(c.text) else None }

  function CodeOf(c: Credential): Option<string> { if c.Code? then Some(c.text) else None }

  lemma CredentialTaken(device: string, c: Credential, rest: seq<string>)
    requires (c.Token? ==> IsToken(c.text)) && (c.Code? ==> IsCode(c.text))
    requires |rest| >= 3 && IsCoordinate(rest[0]) && IsCoordinate(rest[1])
    ensures var layout := Layout([device] + rest, TokenOf(c), CodeOf(c));
      Fits(layout) && TakeCredential([device] + CredentialFields(c) + rest) == layout
  {
    FitsWhen(device, rest, TokenOf(c), CodeOf(c));
    match c
    case NoCredential =>
      assert [device] + [] + rest == [device] + rest;
      NoneTaken(device, rest);
    case Code(code) =>
      assert [device] + [code] + rest == [device, code] + rest;
      CodeTaken(device, code, rest);
    case Token(token) =>
      assert [device] + [token] + rest == [device, token] + rest;
      TokenTaken(device, token, rest);
  }

  // ----- Points -----

  lemma DigitsKeepDots(s: string)
    requires AllDigits(s)
    ensures DotForComma(s) == s
  {
    assert forall i :: 0 <= i < |s| ==> IsDigit(s[i]);
  }

  lemma DotsInside(s: string, point: char, t: string)
    requires AllDigits(s) && AllDigits(t) && IsPoint(point)
    ensures DotForComma(s + [point] + t) == s + ['.'] + t
  {
    assert forall i :: 0 <= i < |s| ==> IsDigit(s[i]);
    assert forall i :: 0 <= i < |t| ==> IsDigit(t[i]);
  }

  lemma SpeedKeepsDots(v: Speed, point: char)
    requires AllDigits(v.fraction) && IsPoint(point)
    ensures DotForComma(SpeedText(v, point)) == SpeedText(v, '.')
  {
    var whole := Numeral(v.whole);
    if v.fraction == "" {
      assert whole + "" == whole;
      DigitsKeepDots(whole);
    } else {
      assert whole + ([point] + v.fraction) == whole + [point] + v.fraction;
      assert whole + (['.'] + v.fraction) == whole + ['.'] + v.fraction;
      DotsInside(whole, point, v.fraction);
    }
  }

  lemma Thousands(v: nat, n: nat)
    requires n * 1000 <= v < n * 1000 + 1000
    ensures v / 1000 == n
  {
  }

  lemma TimeOfDigits(s: string, n: nat, now: real)
    requires s != "" && AllDigits(s)
    requires if Value(s) <= MILLISECONDS_FROM then Value(s) == n else Value(s) / 1000 == n
    ensures ReadTime(s, now) == if -(MAX_SKEW as real) <= n as real - now <= MAX_SKEW as real then Some(n) else None
  {
  }

  lemma TimeRead(n: nat, now: real)
    ensures ReadTime(Numeral(n), now) == ClockOf(Some(n), now)
  {
    NumeralRead(n);
    TimeOfDigits(Numeral(n), if n > MILLISECONDS_FROM then n / 1000 else n, now);
  }

  /** The same instant printed in milliseconds is read the same. */
  lemma MillisecondsRead(n: nat, millis: nat, now: real)
    requires n * 1000 + millis > MILLISECONDS_FROM && millis < 1000
    ensures ReadTime(Numeral(n * 1000 + millis), now) ==
      if -(MAX_SKEW as real) <= n as real - now <= MAX_SKEW as real then Some(n) else None
  {
    NumeralRead(n * 1000 + millis);
    Thousands(n * 1000 + millis, n);
    TimeOfDigits(Numeral(n * 1000 + millis), n, now);
  }

  lemma SatsRead(n: nat)
    requires n < 1000
    ensures IsCount(Numeral(n)) && Value(Numeral(n)) == n
  {
    assert Power10(3) == 1000;
    NumeralLength(n, 3);
    NumeralRead(n);
  }

  lemma CoordinatesBuilt(x: int, bound: nat)
    ensures (WithinDegrees(Decimal(x, 6), bound) <==> Magnitude(x) <= bound * DEGREE) && Quantize(Decimal(x, 6), 6) == x
  {
    PowerOfMicro();
    assert Power10(0) == 1;
  }

  /** What well-formed fields make. */
  lemma Assembled(device: string, lat: string, x: int, lon: string, y: int, sats: string, n: nat, speed: string,
                  v: Option<real>, time: string, token: Option<string>, code: Option<string>, now: real,
                  asFloat: string -> Option<real>)
    requires IsDevice(device)
    requires ReadCoordinate(lat) == Some(Decimal(x, 6)) && ReadCoordinate(lon) == Some(Decimal(y, 6))
    requires WithinDegrees(Decimal(x, 6), 90) <==> Magnitude(x) <= 90 * DEGREE
    requires WithinDegrees(Decimal(y, 6), 180) <==> Magnitude(y) <= 180 * DEGREE
    requires Quantize(Decimal(x, 6), 6) == x && Quantize(Decimal(y, 6), 6) == y
    requires IsCount(sats) && Value(sats) == n
    requires if v.None? then speed == "" else speed != "" && 0.0 <= v.value && asFloat(DotForComma(speed)) == v
    ensures BuildPoint(device, lat, lon, sats, speed, time, token, code, now, asFloat)
      == if Magnitude(x) > 90 * DEGREE || Magnitude(y) > 180 * DEGREE || n > 64 then Refused(BadFormat)
         else if (x == 0 && y == 0) || n < 3 then Refused(NoFix)
         else Accepted(Point(device, x, y, n, if v.Some? && v.value <= 300.0 then v else None, ReadTime(time, now),
                             token, code))
  {
  }

  lemma SpeedRead(v: Speed, point: char, asFloat: string -> Option<real>)
    requires PrintableSpeed(v) && IsPoint(point) && ReadsDecimals(asFloat)
    ensures SpeedText(v, point) != "" && SpeedValue(v) >= 0.0
    ensures asFloat(DotForComma(SpeedText(v, point))) == Some(SpeedValue(v))
  {
    SpeedKeepsDots(v, point);
    NotBelow(Value(v.fraction) as real, Power10(|v.fraction|) as real);
  }

  lemma PointBuilt(r: Reading, point: char, now: real, asFloat: string -> Option<real>)
    requires Printable(r) && IsPoint(point) && ReadsDecimals(asFloat)
    ensures BuildPoint(r.device, Coordinate(r.lat, point), Coordinate(r.lon, point), Numeral(r.sats),
                       SpeedField(r, point), TimeField(r), TokenOf(r.credential), CodeOf(r.credential), now, asFloat)
      == Answer(r, now)
  {
    CoordinateRead(r.lat, point);
    CoordinateRead(r.lon, point);
    CoordinatesBuilt(r.lat, 90);
    CoordinatesBuilt(r.lon, 180);
    SatsRead(r.sats);
    var v := if r.speed.Some? then Some(SpeedValue(r.speed.value)) else None;
    if r.speed.Some? {
      SpeedRead(r.speed.value, point, asFloat);
    }
    if r.time.Some? {
      TimeRead(r.time.value, now);
    }
    assert ReadTime(TimeField(r), now) == ClockOf(r.time, now);
    Assembled(r.device, Coordinate(r.lat, point), r.lat, Coordinate(r.lon, point), r.lon, Numeral(r.sats), r.sats,
              SpeedField(r, point), v, TimeField(r), TokenOf(r.credential), CodeOf(r.credential), now, asFloat);
  }

  lemma LayoutRead(raw: string, parts: seq<string>, token: Option<string>, code: Option<string>,
                   now: real, asFloat: string -> Option<real>)
    requires Choose(Candidates(raw), []) == Layout(parts, token, code) && |parts| > 3
    ensures ParsePositional(raw, now, asFloat) ==
      BuildPoint(parts[0], parts[1], parts[2], parts[3], if |parts| > 4 then parts[4] else "",
                 if |parts| > 5 then parts[5] else "", token, code, now, asFloat)
  {
  }

  lemma PartsInOrder(device: string, lat: string, lon: string, sats: string, speed: string, time: string)
    requires time != "" ==> speed != ""
    ensures var parts :=
        [device] + ([lat, lon] + ([sats] + (if speed == "" then [] else [speed]) + if time == "" then [] else [time]));
      && |parts| > 3 && parts[0] == device && parts[1] == lat && parts[2] == lon && parts[3] == sats
      && (if |parts| > 4 then parts[4] else "") == speed && (if |parts| > 5 then parts[5] else "") == time
  {
  }

  lemma FieldsRead(raw: string, device: string, lat: string, lon: string, sats: string, speed: string, time: string,
                  token: Option<string>, code: Option<string>, now: real, asFloat: string -> Option<real>)
    requires time != "" ==> speed != ""
    requires Choose(Candidates(raw), []) == Layout(
      [device] + ([lat, lon] + ([sats] + (if speed == "" then [] else [speed]) + if time == "" then [] else [time])),
      token, code)
    ensures ParsePositional(raw, now, asFloat)
      == BuildPoint(device, lat, lon, sats, speed, time, token, code, now, asFloat)
  {
    PartsInOrder(device, lat, lon, sats, speed, time);
    LayoutRead(raw, Choose(Candidates(raw), []).parts, token, code, now, asFloat);
  }

  lemma PositionalRead(r: Reading, sep: char, point: char, now: real, asFloat: string -> Option<real>)
    requires Printable(r) && IsSeparator(sep) && IsPoint(point) && (sep == ',' ==> point == '.')
    requires ReadsDecimals(asFloat)
    ensures ParsePositional(Join(FieldsOf(r, point), sep), now, asFloat) == Answer(r, now)
  {
    var (lat, lon) := (Coordinate(r.lat, point), Coordinate(r.lon, point));
    CoordinateRead(r.lat, point);
    CoordinateRead(r.lon, point);
    FieldsAreGood(r, point);
    CredentialTaken(r.device, r.credential, [lat, lon] + TailFields(r, point));
    RightCandidate(FieldsOf(r, point), sep, point);
    PointBuilt(r, point, now, asFloat);
    FieldsRead(Join(FieldsOf(r, point), sep), r.device, lat, lon, Numeral(r.sats),
              SpeedField(r, point), TimeField(r), TokenOf(r.credential), CodeOf(r.credential), now, asFloat);
  }

  // ----- Before the fields -----

  lemma NothingToTrim(s: string)
    requires s != "" && !IsSpace(s[0]) && !IsSpace(s[|s| - 1]) && s[0] != '\U{FEFF}'
    ensures DropMark(Strip(s)) == s
  {
  }

  /** Nothing in a line of such characters diverts it from the positional reader. */
  lemma Undiverted(s: string, now: real, asFloat: string -> Option<real>)
    requires s != "" && |s| <= MAX_MESSAGE && IsDeviceChar(s[0]) && !IsSpace(s[|s| - 1]) && '=' !in s
    ensures Parse(s, now, asFloat) == ParsePositional(if HasPrefix(s) then s[4..] else s, now, asFloat)
  {
    NothingToTrim(s);
  }

  lemma SeparableEnds(fields: seq<string>, sep: char, point: char)
    requires Separable(fields, sep, point)
    ensures var (s, first, last) := (Join(fields, sep), fields[0], fields[|fields| - 1]);
      s != "" && first != "" && last != "" && s[0] == first[0] && s[|s| - 1] == last[|last| - 1]
  {
    forall i | 0 <= i < |fields| ensures fields[i] != "" {
      assert GoodField(fields[i], point);
    }
    JoinEnds(fields, sep);
  }

  lemma SeparableLength(fields: seq<string>, sep: char, point: char)
    requires Separable(fields, sep, point)
    ensures |Join(fields, sep)| <= 1000
  {
    forall f | f in fields ensures |f| <= 64 {
      assert GoodField(f, point);
    }
    JoinLength(fields, sep, 64);
  }

  lemma JoinedIsUndiverted(fields: seq<string>, sep: char, point: char)
    requires Separable(fields, sep, point) && forall c <- fields[0] :: IsDeviceChar(c)
    requires var last := fields[|fields| - 1]; last != "" && IsDeviceChar(last[|last| - 1])
    ensures var s := Join(fields, sep);
      s != "" && |s| <= 1000 && IsDeviceChar(s[0]) && IsDeviceChar(s[|s| - 1]) && '=' !in s
  {
    SeparableEnds(fields, sep, point);
    SeparableLength(fields, sep, point);
    NoOther(fields, sep, point, '=');
    assert fields[0][0] in fields[0];
  }

  predicate IsPrefixName(device: string) {
    |device| == 3 && ToUpper(device[0]) == 'B' && ToUpper(device[1]) == 'O' && device[2] == '1'
  }

  lemma NoPrefix(device: string, sep: char, rest: string)
    requires IsDevice(device) && IsSeparator(sep) && !(sep == ',' && IsPrefixName(device))
    ensures !HasPrefix(device + [sep] + rest)
  {
    var s := device + [sep] + rest;
    assert s[|device|] == sep;
    if |device| > 3 {
      assert s[3] == device[3] && device[3] in device;
    } else if |device| == 3 {
      assert s[0] == device[0] && s[1] == device[1] && s[2] == device[2];
    }
  }

  lemma DigitsEndInDigit(s: string)
    requires s != "" && AllDigits(s)
    ensures IsDigit(s[|s| - 1])
  {
    assert s[|s| - 1] in s;
  }

  lemma TailEnds(r: Reading, point: char)
    requires Printable(r) && IsPoint(point)
    ensures var tail := TailFields(r, point); var last := tail[|tail| - 1]; last != "" && IsDigit(last[|last| - 1])
  {
    if r.time.Some? {
      DigitsEndInDigit(TimeField(r));
    } else if r.speed.Some? {
      SpeedIsGood(r.speed.value, point);
    } else {
      DigitsEndInDigit(Numeral(r.sats));
    }
  }

  lemma EndsOfReading(r: Reading, point: char)
    requires Printable(r) && IsPoint(point)
    ensures var fields := FieldsOf(r, point); var last := fields[|fields| - 1];
      && (forall c <- fields[0] :: IsDeviceChar(c))
      && last != "" && IsDeviceChar(last[|last| - 1])
      && fields == [r.device] + fields[1..]
  {
    var (fields, tail) := (FieldsOf(r, point), TailFields(r, point));
    TailEnds(r, point);
    assert fields[|fields| - 1] == tail[|tail| - 1];
  }

  /** A line of fields without the prefix is read as it stands. */
  lemma UnprefixedRead(fields: seq<string>, sep: char, point: char, now: real, asFloat: string -> Option<real>)
    requires Separable(fields, sep, point) && IsDevice(fields[0]) && !(sep == ',' && IsPrefixName(fields[0]))
    requires var last := fields[|fields| - 1]; last != "" && IsDeviceChar(last[|last| - 1])
    ensures Parse(Join(fields, sep), now, asFloat) == ParsePositional(Join(fields, sep), now, asFloat)
  {
    JoinedIsUndiverted(fields, sep, point);
    NoPrefix(fields[0], sep, Join(fields[1..], sep));
    Undiverted(Join(fields, sep), now, asFloat);
  }

  /** The fields of any reading that can be printed, joined by space, tab, semicolon or comma, get the answer the
      reading deserves; decimals may have a comma unless the separator is one, and in the comma form the device must
      not be called like the version prefix. */
  lemma RoundTrip(r: Reading, sep: char, point: char, now: real, asFloat: string -> Option<real>)
    requires Printable(r) && IsSeparator(sep) && IsPoint(point) && ReadsDecimals(asFloat)
    requires sep == ',' ==> point == '.' && !IsPrefixName(r.device)
    ensures Parse(Join(FieldsOf(r, point), sep), now, asFloat) == Answer(r, now)
  {
    FieldsAreGood(r, point);
    EndsOfReading(r, point);
    UnprefixedRead(FieldsOf(r, point), sep, point, now, asFloat);
    PositionalRead(r, sep, point, now, asFloat);
  }

  /** Device, latitude and longitude alone make a point with three satellites and nothing else. */
  function PlaceAnswer(device: string, lat: int, lon: int): Parsed {
    if Magnitude(lat) > 90 * DEGREE || Magnitude(lon) > 180 * DEGREE then Refused(BadFormat)
    else if lat == 0 && lon == 0 then Refused(NoFix)
    else Accepted(Point(device, lat, lon, 3, None, None, None, None))
  }

  function Place(device: string, lat: int, lon: int, point: char): seq<string> {
    [device, Coordinate(lat, point), Coordinate(lon, point)]
  }

  lemma PlaceIsGood(device: string, lat: int, lon: int, point: char)
    requires IsDevice(device) && Magnitude(lat) < 1000 * DEGREE && Magnitude(lon) < 1000 * DEGREE && IsPoint(point)
    ensures forall f <- Place(device, lat, lon, point) :: GoodField(f, point)
    ensures var last := Coordinate(lon, point); last != "" && IsDeviceChar(last[|last| - 1])
  {
    CoordinateField(lat, point);
    CoordinateField(lon, point);
    DigitsEndInDigit(Padded(Magnitude(lon) % DEGREE, 6));
    var last := Coordinate(lon, point);
    assert last[|last| - 1] == Padded(Magnitude(lon) % DEGREE, 6)[5];
  }

  lemma PlaceBuilt(device: string, lat: int, lon: int, point: char, now: real, asFloat: string -> Option<real>)
    requires IsDevice(device) && Magnitude(lat) < 1000 * DEGREE && Magnitude(lon) < 1000 * DEGREE && IsPoint(point)
    ensures BuildPoint(device, Coordinate(lat, point), Coordinate(lon, point), Numeral(MIN_SATS), "", "", None, None,
                       now, asFloat) == PlaceAnswer(device, lat, lon)
  {
    CoordinateRead(lat, point);
    CoordinateRead(lon, point);
    CoordinatesBuilt(lat, 90);
    CoordinatesBuilt(lon, 180);
    SatsRead(MIN_SATS);
    Assembled(device, Coordinate(lat, point), lat, Coordinate(lon, point), lon, Numeral(MIN_SATS), MIN_SATS, "", None,
              "", None, None, now, asFloat);
  }

  lemma PlaceChosen(device: string, lat: string, lon: string)
    requires IsCoordinate(lat) && IsCoordinate(lon)
    ensures Fits(TakeCredential([device, lat, lon]))
    ensures TakeCredential([device, lat, lon]) == Layout([device, lat, lon], None, None)
  {
  }

  lemma ThreeRead(raw: string, parts: seq<string>, now: real, asFloat: string -> Option<real>)
    requires Choose(Candidates(raw), []) == Layout(parts, None, None) && |parts| == 3
    ensures ParsePositional(raw, now, asFloat)
      == BuildPoint(parts[0], parts[1], parts[2], Numeral(MIN_SATS), "", "", None, None, now, asFloat)
  {
  }

  /** The same for a line without satellites. */
  lemma PlaceRoundTrip(device: string, lat: int, lon: int, sep: char, point: char, now: real,
                       asFloat: string -> Option<real>)
    requires IsDevice(device) && Magnitude(lat) < 1000 * DEGREE && Magnitude(lon) < 1000 * DEGREE
    requires IsSeparator(sep) && IsPoint(point) && (sep == ',' ==> point == '.' && !IsPrefixName(device))
    ensures Parse(Join(Place(device, lat, lon, point), sep), now, asFloat) == PlaceAnswer(device, lat, lon)
  {
    var fields := Place(device, lat, lon, point);
    PlaceIsGood(device, lat, lon, point);
    CoordinateRead(lat, point);
    CoordinateRead(lon, point);
    UnprefixedRead(fields, sep, point, now, asFloat);
    PlaceChosen(device, fields[1], fields[2]);
    RightCandidate(fields, sep, point);
    ThreeRead(Join(fields, sep), fields, now, asFloat);
    PlaceBuilt(device, lat, lon, point, now, asFloat);
  }

  // ----- The version prefix -----

  predicate LongHead(parts: seq<string>) { parts == [] || |parts[0]| > 3 }

  lemma {:induction false} LongHeadChosen(candidates: seq<seq<string>>, best: seq<string>)
    requires LongHead(best) && forall c <- candidates :: LongHead(c)
    ensures LongHead(Choose(candidates, best).parts)
  {
    if candidates == [] {
    } else {
      var layout := TakeCredential(candidates[0]);
      assert LongHead(candidates[0]);
      LongHeadChosen(candidates[1..], if |layout.parts| > |best| then layout.parts else best);
    }
  }

  lemma DeviceIsHead(raw: string, now: real, asFloat: string -> Option<real>)
    ensures var (parts, p) := (Choose(Candidates(raw), []).parts, ParsePositional(raw, now, asFloat));
      p.Accepted? ==> parts != [] && p.point.device == parts[0]
  {
  }

  lemma LongSecondField(r: Reading)
    requires Printable(r)
    ensures |FieldsOf(r, '.')[1]| > 3
  {
  }

  lemma WithoutPrefix(device: string, rest: string)
    requires IsPrefixName(device)
    ensures HasPrefix(device + [','] + rest) && (device + [','] + rest)[4..] == rest
  {
  }

  lemma LongHeadRead(fields: seq<string>, now: real, asFloat: string -> Option<real>)
    requires Separable(fields, ',', '.') && |fields[0]| > 3
    ensures var p := ParsePositional(Join(fields, ','), now, asFloat); p.Accepted? ==> |p.point.device| > 3
  {
    var raw := Join(fields, ',');
    CommaCandidates(fields, '.');
    assert |raw| > 3;
    LongHeadChosen(Candidates(raw), []);
    DeviceIsHead(raw, now, asFloat);
  }

  lemma RestOfReading(r: Reading)
    requires Printable(r)
    ensures var fields := FieldsOf(r, '.');
      Separable(fields, ',', '.') && Separable(fields[1..], ',', '.') && |fields[1..][0]| > 3
  {
    FieldsAreGood(r, '.');
    LongSecondField(r);
  }

  /** A line that starts with the prefix is read without it. */
  lemma PrefixedRead(fields: seq<string>, now: real, asFloat: string -> Option<real>)
    requires Separable(fields, ',', '.') && IsPrefixName(fields[0])
    requires forall c <- fields[0] :: IsDeviceChar(c)
    requires var last := fields[|fields| - 1]; last != "" && IsDeviceChar(last[|last| - 1])
    ensures Parse(Join(fields, ','), now, asFloat) == ParsePositional(Join(fields[1..], ','), now, asFloat)
  {
    JoinedIsUndiverted(fields, ',', '.');
    Undiverted(Join(fields, ','), now, asFloat);
    WithoutPrefix(fields[0], Join(fields[1..], ','));
  }

  /** A device called like the version prefix loses its name in the comma form. */
  lemma PrefixNameIsLost(r: Reading, now: real, asFloat: string -> Option<real>)
    requires Printable(r) && IsPrefixName(r.device)
    ensures Parse(Join(FieldsOf(r, '.'), ','), now, asFloat) != Accepted(PointOf(r, now))
  {
    var fields := FieldsOf(r, '.');
    RestOfReading(r);
    EndsOfReading(r, '.');
    PrefixedRead(fields, now, asFloat);
    LongHeadRead(fields[1..], now, asFloat);
  }

  /** In the comma form that name is the only obstacle for a reading that makes a point. */
  lemma CommaRoundTripExactly(r: Reading, now: real, asFloat: string -> Option<real>)
    requires Printable(r) && Answer(r, now).Accepted? && ReadsDecimals(asFloat)
    ensures Parse(Join(FieldsOf(r, '.'), ','), now, asFloat) == Answer(r, now) <==> !IsPrefixName(r.device)
  {
    if IsPrefixName(r.device) {
      PrefixNameIsLost(r, now, asFloat);
    } else {
      RoundTrip(r, ',', '.', now, asFloat);
    }
  }

  /** The prefix of the emulator in any case of letters. */
  predicate IsPrefix(prefix: string) { prefix in {"BO1,", "Bo1,", "bO1,", "bo1,"} }

  lemma PrefixedLine(prefix: string, s: string)
    requires s != "" && '=' !in s && IsPrefix(prefix)
    ensures var line := prefix + s;
      && HasPrefix(line) && line[4..] == s && '=' !in line && |line| == |s| + 4
      && IsDeviceChar(line[0]) && line[|line| - 1] == s[|s| - 1]
  {
  }

  lemma AfterPrefix(prefix: string, s: string, now: real, asFloat: string -> Option<real>)
    requires IsPrefix(prefix) && s != "" && |s| <= 1000 && IsDeviceChar(s[|s| - 1]) && '=' !in s
    ensures Parse(prefix + s, now, asFloat) == ParsePositional(s, now, asFloat)
  {
    PrefixedLine(prefix, s);
    Undiverted(prefix + s, now, asFloat);
  }

  /** A comma line after the prefix is read as what follows it, whatever the device is called. */
  lemma PrefixIgnored(prefix: string, r: Reading, now: real, asFloat: string -> Option<real>)
    requires IsPrefix(prefix) && Printable(r) && ReadsDecimals(asFloat)
    ensures Parse(prefix + Join(FieldsOf(r, '.'), ','), now, asFloat) == Answer(r, now)
  {
    var fields := FieldsOf(r, '.');
    FieldsAreGood(r, '.');
    EndsOfReading(r, '.');
    JoinedIsUndiverted(fields, ',', '.');
    AfterPrefix(prefix, Join(fields, ','), now, asFloat);
    PositionalRead(r, ',', '.', now, asFloat);
  }

  /** The emulator's own line, in either of its forms. */
  lemma EmulatorRoundTrip(r: Reading, now: real, asFloat: string -> Option<real>)
    requires Printable(r) && ReadsDecimals(asFloat)
    ensures Parse(Line(r), now, asFloat) == Answer(r, now)
  {
    if r.credential.Token? {
      PrefixIgnored("BO1,", r, now, asFloat);
    } else {
      RoundTrip(r, ' ', '.', now, asFloat);
    }
  }
}
