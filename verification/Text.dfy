/** The string operations of the line parser, on ASCII text. */
module Text {
  /** ASCII characters that `str.isspace` and the pattern `\s` accept. */
  predicate IsSpace(c: char) {
    c == ' ' || '\t' <= c <= '\r' || '\U{1C}' <= c <= '\U{1F}'
  }

  predicate IsDigit(c: char) { '0' <= c <= '9' }

  predicate AllDigits(s: string) { forall c <- s :: IsDigit(c) }

  function ToUpper(c: char): char { if 'a' <= c <= 'z' then 'A' + (c - 'a') else c }

  function Strip(s: string): string {
    if s == [] then [] else if IsSpace(s[0]) then Strip(s[1..])
    else if IsSpace(s[|s| - 1]) then Strip(s[..|s| - 1]) else s
  }

  predicate Blank(s: string) { forall c <- s :: IsSpace(c) }

  /** Stripping takes blanks from both ends, all of them, and nothing else. */
  lemma {:induction false} StripMeans(s: string) returns (left: string, right: string)
    ensures s == left + Strip(s) + right && Blank(left) && Blank(right)
    ensures Strip(s) == "" || (!IsSpace(Strip(s)[0]) && !IsSpace(Strip(s)[|Strip(s)| - 1]))
  {
    left, right := "", "";
    if s == [] {
    } else if IsSpace(s[0]) {
      left, right := StripMeans(s[1..]);
      left := [s[0]] + left;
    } else if IsSpace(s[|s| - 1]) {
      left, right := StripMeans(s[..|s| - 1]);
      right := right + [s[|s| - 1]];
    }
  }

  lemma StripSame(s: string)
    requires forall c <- s :: !IsSpace(c)
    ensures Strip(s) == s
  {
  }

  /** The pieces between separator characters, one more than there are separators. */
  function Split(s: string, isSep: char -> bool): (r: seq<string>)
    ensures r != []
  {
    if s == [] then [""] else
      var rest := Split(s[1..], isSep);
      if isSep(s[0]) then [""] + rest else [[s[0]] + rest[0]] + rest[1..]
  }

  function Join(fields: seq<string>, sep: char): string {
    if fields == [] then "" else if |fields| == 1 then fields[0] else fields[0] + [sep] + Join(fields[1..], sep)
  }

  /** The pieces without surrounding blanks, empty ones dropped. */
  function Tidy(pieces: seq<string>): seq<string> {
    if pieces == [] then [] else
      var piece := Strip(pieces[0]);
      (if piece == "" then [] else [piece]) + Tidy(pieces[1..])
  }

  lemma {:induction false} TidyConcat(a: seq<string>, b: seq<string>)
    ensures Tidy(a + b) == Tidy(a) + Tidy(b)
  {
    if a == [] {
      assert a + b == b;
    } else {
      assert (a + b)[1..] == a[1..] + b;
      TidyConcat(a[1..], b);
    }
  }

  /** A piece is kept without the blanks around it, and a blank piece is dropped. */
  lemma TidyOne(left: string, piece: string, right: string)
    requires Blank(left) && Blank(right) && (piece == "" || (!IsSpace(piece[0]) && !IsSpace(piece[|piece| - 1])))
    ensures Tidy([left + piece + right]) == if piece == "" then [] else [piece]
  {
    StripUnique(left, piece, right);
    assert [left + piece + right][1..] == [];
  }

  lemma {:induction false} StripUnique(left: string, piece: string, right: string)
    requires Blank(left) && Blank(right) && (piece == "" || (!IsSpace(piece[0]) && !IsSpace(piece[|piece| - 1])))
    ensures Strip(left + piece + right) == piece
    decreases |left| + |right|
  {
    var s := left + piece + right;
    if left != "" {
      assert s[1..] == left[1..] + piece + right;
      StripUnique(left[1..], piece, right);
    } else if piece == "" && right != "" {
      assert s[1..] == right[1..] + piece + left;
      StripUnique(right[1..], piece, left);
    } else if right != "" {
      assert s[..|s| - 1] == left + piece + right[..|right| - 1];
      StripUnique(left, piece, right[..|right| - 1]);
    }
  }

  predicate Free(s: string, isSep: char -> bool) { forall c <- s :: !isSep(c) }

  lemma {:induction false} SplitNothing(s: string, isSep: char -> bool)
    requires Free(s, isSep)
    ensures Split(s, isSep) == [s]
  {
    if s == [] {
    } else {
      SplitNothing(s[1..], isSep);
      assert [s[0]] + s[1..] == s;
    }
  }

  lemma {:induction false} SplitFirst(s: string, sep: char, rest: string, isSep: char -> bool)
    requires Free(s, isSep) && isSep(sep)
    ensures Split(s + [sep] + rest, isSep) == [s] + Split(rest, isSep)
  {
    var all := s + [sep] + rest;
    if s == [] {
      assert all[1..] == rest;
    } else {
      SplitFirst(s[1..], sep, rest, isSep);
      assert all[1..] == s[1..] + [sep] + rest;
      assert [s[0]] + s[1..] == s;
    }
  }

  lemma {:induction false} SplitJoin(fields: seq<string>, sep: char, isSep: char -> bool)
    requires fields != [] && isSep(sep) && forall f <- fields :: Free(f, isSep)
    ensures Split(Join(fields, sep), isSep) == fields
  {
    if |fields| == 1 {
      SplitNothing(fields[0], isSep);
    } else {
      SplitJoin(fields[1..], sep, isSep);
      SplitFirst(fields[0], sep, Join(fields[1..], sep), isSep);
    }
  }

  /** A field that tidying leaves alone. */
  predicate Plain(s: string) { s != "" && forall c <- s :: !IsSpace(c) }

  lemma {:induction false} TidySame(pieces: seq<string>)
    requires forall p <- pieces :: Plain(p)
    ensures Tidy(pieces) == pieces
  {
    if pieces == [] {
    } else {
      assert Plain(pieces[0]);
      StripSame(pieces[0]);
      TidySame(pieces[1..]);
    }
  }

  lemma {:induction false} JoinMembers(fields: seq<string>, sep: char, c: char)
    requires c in Join(fields, sep)
    ensures c == sep || exists f <- fields :: c in f
  {
    if |fields| > 1 && c !in fields[0] && c != sep {
      JoinMembers(fields[1..], sep, c);
    } else if |fields| >= 1 {
      assert c in fields[0] || c == sep;
    }
  }
}
