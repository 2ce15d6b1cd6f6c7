/** Lines a tracker should not send but may: separators mixed, and a credential before too few fields. */
module GpsOddLines {
  import opened Common
  import opened Text
  import opened Numerals
  import opened GpsLines
  import opened GpsRoundTrip

  lemma {:induction false} TidyShrinks(pieces: seq<string>)
    ensures |Tidy(pieces)| <= |pieces|
  {
    if pieces == [] {
    } else {
      TidyShrinks(pieces[1..]);
    }
  }

  /** A way to divide a line that leaves the characters of fields alone. */
  ghost predicate Divides(isSep: char -> bool) { forall c :: IsDeviceChar(c) ==> !isSep(c) }

  lemma GoodIsFree(s: string, isSep: char -> bool)
    requires GoodField(s, '.') && Divides(isSep)
    ensures Free(s, isSep) && Plain(s)
  {
  }

  // ----- Two separators -----

  function Mixed(a: string, s: char, b: string, t: char, c: string): string { a + [s] + (b + [t] + c) }

  lemma PiecesOfMixed(a: string, s: char, b: string, t: char, c: string, isSep: char -> bool)
    requires Free(a, isSep) && Free(b, isSep) && Free(c, isSep)
    ensures var pieces := Split(Mixed(a, s, b, t, c), isSep);
      if isSep(s) && isSep(t) then pieces == [a, b, c] else |pieces| <= 2
  {
    SplitNothing(c, isSep);
    if isSep(s) {
      SplitFirst(a, s, b + [t] + c, isSep);
      if isSep(t) {
        SplitFirst(b, t, c, isSep);
      } else {
        SplitNothing(b + [t] + c, isSep);
      }
    } else if isSep(t) {
      assert Mixed(a, s, b, t, c) == (a + [s] + b) + [t] + c;
      SplitFirst(a + [s] + b, t, c, isSep);
    } else {
      SplitNothing(Mixed(a, s, b, t, c), isSep);
    }
  }

  lemma FieldsOfMixed(a: string, s: char, b: string, t: char, c: string, isSep: char -> bool)
    requires GoodField(a, '.') && GoodField(b, '.') && GoodField(c, '.') && Divides(isSep)
    ensures var fields := Fields(Mixed(a, s, b, t, c), isSep);
      if isSep(s) && isSep(t) then fields == [a, b, c] else |fields| <= 2
  {
    GoodIsFree(a, isSep);
    GoodIsFree(b, isSep);
    GoodIsFree(c, isSep);
    PiecesOfMixed(a, s, b, t, c, isSep);
    TidyShrinks(Split(Mixed(a, s, b, t, c), isSep));
    if isSep(s) && isSep(t) {
      TidySame([a, b, c]);
    }
  }

  predicate IsOrShort(found: seq<string>, fields: seq<string>, short: nat) { found == fields || |found| <= short }

  /** Every candidate is the fields or too short, and one is the fields. */
  ghost predicate FieldsOrShort(candidates: seq<seq<string>>, fields: seq<string>, short: nat) {
    && (forall x <- candidates :: IsOrShort(x, fields, short))
    && fields in candidates
  }

  /** What holds of all five ways holds of the candidates, and the last way is always among them. */
  lemma OneOfFive(line: string, fields: seq<string>, short: nat)
    requires IsOrShort(Fields(line, x => x == ';'), fields, short)
    requires IsOrShort(Fields(line, x => x == '\t'), fields, short)
    requires IsOrShort(Fields(line, x => IsSpace(x)), fields, short)
    requires IsOrShort(Fields(line, x => x == ','), fields, short)
    requires Fields(line, x => IsSpace(x) || x == ',' || x == ';') == fields
    ensures FieldsOrShort(Candidates(line), fields, short)
  {
    var candidates := Candidates(line);
    forall x | x in candidates ensures IsOrShort(x, fields, short) {
    }
    assert candidates[|candidates| - 1] == fields;
  }

  lemma MixedCandidates(a: string, s: char, b: string, t: char, c: string)
    requires GoodField(a, '.') && GoodField(b, '.') && GoodField(c, '.')
    requires IsSeparator(s) && IsSeparator(t) && s != t
    ensures FieldsOrShort(Candidates(Mixed(a, s, b, t, c)), [a, b, c], 2)
  {
    FieldsOfMixed(a, s, b, t, c, x => x == ';');
    FieldsOfMixed(a, s, b, t, c, x => x == '\t');
    FieldsOfMixed(a, s, b, t, c, x => IsSpace(x));
    FieldsOfMixed(a, s, b, t, c, x => x == ',');
    FieldsOfMixed(a, s, b, t, c, x => IsSpace(x) || x == ',' || x == ';');
    OneOfFive(Mixed(a, s, b, t, c), [a, b, c], 2);
  }

  lemma {:induction false} FieldsFit(candidates: seq<seq<string>>, fields: seq<string>, best: seq<string>)
    requires FieldsOrShort(candidates, fields, 2) && Fits(TakeCredential(fields))
    ensures Choose(candidates, best) == TakeCredential(fields)
  {
    var x := candidates[0];
    if x != fields {
      assert x in candidates;
      assert TakeCredential(x) == Layout(x, None, None);
      FieldsFit(candidates[1..], fields, if |x| > |best| then x else best);
    }
  }

  lemma MixedEnds(a: string, s: char, b: string, t: char, c: string)
    requires GoodField(a, '.') && GoodField(b, '.') && GoodField(c, '.') && IsSeparator(s) && IsSeparator(t)
    ensures var line := Mixed(a, s, b, t, c);
      |line| <= 1000 && line[0] == a[0] && line[|line| - 1] == c[|c| - 1] && '=' !in line
  {
  }

  /** Device, latitude and longitude with two different separators between them, such as "T1,59.93 30.31", are read all
      the same. */
  lemma MixedPlace(device: string, s: char, lat: int, t: char, lon: int, now: real, asFloat: string -> Option<real>)
    requires IsDevice(device) && Magnitude(lat) < 1000 * DEGREE && Magnitude(lon) < 1000 * DEGREE
    requires IsSeparator(s) && IsSeparator(t) && s != t && !(s == ',' && IsPrefixName(device))
    ensures Parse(Mixed(device, s, Coordinate(lat, '.'), t, Coordinate(lon, '.')), now, asFloat)
      == PlaceAnswer(device, lat, lon)
  {
    var (x, y) := (Coordinate(lat, '.'), Coordinate(lon, '.'));
    var line := Mixed(device, s, x, t, y);
    var fields := [device, x, y];
    assert fields == Place(device, lat, lon, '.');
    PlaceIsGood(device, lat, lon, '.');
    assert GoodField(fields[0], '.') && GoodField(fields[1], '.') && GoodField(fields[2], '.');
    MixedEnds(device, s, x, t, y);
    assert device[0] in device;
    NoPrefix(device, s, x + [t] + y);
    Undiverted(line, now, asFloat);
    CoordinateRead(lat, '.');
    CoordinateRead(lon, '.');
    PlaceChosen(device, x, y);
    MixedCandidates(device, s, x, t, y);
    FieldsFit(Candidates(line), fields, []);
    ThreeRead(line, fields, now, asFloat);
    PlaceBuilt(device, lat, lon, '.', now, asFloat);
  }

  // ----- A credential before too few fields -----

  lemma FieldsOrOne(fields: seq<string>, sep: char, isSep: char -> bool)
    requires Separable(fields, sep, '.') && Divides(isSep)
    ensures var found := Fields(Join(fields, sep), isSep); if isSep(sep) then found == fields else |found| <= 1
  {
    var line := Join(fields, sep);
    if isSep(sep) {
      FieldsBack(fields, sep, '.', isSep);
    } else {
      forall c | c in line ensures !isSep(c) {
        JoinedChars(fields, sep, '.', c);
      }
      SplitNothing(line, isSep);
      TidyShrinks([line]);
    }
  }

  lemma JoinedCandidates(fields: seq<string>, sep: char)
    requires Separable(fields, sep, '.')
    ensures FieldsOrShort(Candidates(Join(fields, sep)), fields, 1)
  {
    FieldsOrOne(fields, sep, x => x == ';');
    FieldsOrOne(fields, sep, x => x == '\t');
    FieldsOrOne(fields, sep, x => IsSpace(x));
    FieldsOrOne(fields, sep, x => x == ',');
    FieldsOrOne(fields, sep, x => IsSpace(x) || x == ',' || x == ';');
    OneOfFive(Join(fields, sep), fields, 1);
  }

  lemma {:induction false} NothingFits(candidates: seq<seq<string>>, fields: seq<string>, best: seq<string>)
    requires (forall x <- candidates :: IsOrShort(x, fields, 1)) && |fields| == 4 && !IsCoordinate(fields[1])
    requires best == fields || (|best| <= 1 && fields in candidates)
    ensures Choose(candidates, best) == Layout(fields, None, None)
  {
    if candidates == [] {
    } else {
      var x := candidates[0];
      assert x in candidates;
      assert TakeCredential(x) == Layout(x, None, None);
      NothingFits(candidates[1..], fields, if |x| > |best| then x else best);
    }
  }

  /** A credential is looked for only before three fields more: with device, credential, latitude and longitude alone
      the line is refused. */
  lemma CredentialNeedsSatellites(device: string, credential: string, lat: int, lon: int, sep: char, now: real,
                                  asFloat: string -> Option<real>)
    requires IsDevice(device) && (IsCode(credential) || IsToken(credential)) && IsSeparator(sep)
    requires Magnitude(lat) < 1000 * DEGREE && Magnitude(lon) < 1000 * DEGREE && !(sep == ',' && IsPrefixName(device))
    ensures Parse(Join([device, credential, Coordinate(lat, '.'), Coordinate(lon, '.')], sep), now, asFloat)
      == Refused(BadFormat)
  {
    var fields := [device, credential, Coordinate(lat, '.'), Coordinate(lon, '.')];
    var line := Join(fields, sep);
    PlaceIsGood(device, lat, lon, '.');
    assert Place(device, lat, lon, '.') == [fields[0], fields[2], fields[3]];
    assert GoodField(fields[0], '.') && GoodField(fields[2], '.') && GoodField(fields[3], '.');
    CredentialIsNoCoordinate(credential);
    UnprefixedRead(fields, sep, '.', now, asFloat);
    JoinedCandidates(fields, sep);
    NothingFits(Candidates(line), fields, []);
    LayoutRead(line, fields, None, None, now, asFloat);
  }
}
