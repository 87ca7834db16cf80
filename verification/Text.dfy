/** The string operations both scripts use: split, join, trim and removal of a character. */
module Text {

  /** JavaScript's white space. */
  predicate IsSpace(c: char) {
    || c in {' ', '\t', '\n', '\r', '\U{000B}', '\U{000C}', '\U{00A0}', '\U{1680}', '\U{2028}', '\U{2029}'}
    || c in {'\U{202F}', '\U{205F}', '\U{3000}', '\U{FEFF}'}
    || '\U{2000}' <= c <= '\U{200A}'
  }

  function Split(s: string, sep: char): (r: seq<string>)
    ensures |r| >= 1
  {
    if s == [] then [[]]
    else
      var rest := Split(s[1..], sep);
      if s[0] == sep then [[]] + rest else [[s[0]] + rest[0]] + rest[1..]
  }

  function Join(parts: seq<string>, sep: char): string {
    if parts == [] then []
    else if |parts| == 1 then parts[0]
    else parts[0] + [sep] + Join(parts[1..], sep)
  }

  lemma {:induction false} SplitNone(s: string, sep: char)
    requires sep !in s
    ensures Split(s, sep) == [s]
    decreases |s|
  {
    if s != [] {
      SplitNone(s[1..], sep);
      assert [s[0]] + s[1..] == s;
    }
  }

  lemma {:induction false} SplitAppend(a: string, b: string, sep: char)
    ensures Split(a + [sep] + b, sep) == Split(a, sep) + Split(b, sep)
    decreases |a|
  {
    var whole := a + [sep] + b;
    if a == [] {
      assert whole[1..] == b;
    } else {
      assert whole[1..] == a[1..] + [sep] + b;
      SplitAppend(a[1..], b, sep);
    }
  }

  lemma {:induction false} SplitJoin(parts: seq<string>, sep: char)
    requires parts != [] && forall p :: p in parts ==> sep !in p
    ensures Split(Join(parts, sep), sep) == parts
    decreases |parts|
  {
    SplitNone(parts[0], sep);
    if |parts| > 1 {
      SplitAppend(parts[0], Join(parts[1..], sep), sep);
      SplitJoin(parts[1..], sep);
    }
  }

  function TrimLeft(s: string): (r: string)
    ensures |r| <= |s|
  {
    if s != [] && IsSpace(s[0]) then TrimLeft(s[1..]) else s
  }

  function TrimRight(s: string): (r: string)
    ensures |r| <= |s|
    ensures r != [] ==> s != [] && r[0] == s[0] && !IsSpace(r[|r| - 1])
    ensures s != [] && !IsSpace(s[0]) ==> r != []
    ensures forall c :: c in r ==> c in s
  {
    if s != [] && IsSpace(s[|s| - 1]) then TrimRight(s[..|s| - 1]) else s
  }

  function Trim(s: string): (r: string)
    ensures |r| <= |s|
  {
    TrimRight(TrimLeft(s))
  }

  predicate Trimmed(s: string) {
    s != [] && !IsSpace(s[0]) && !IsSpace(s[|s| - 1])
  }

  lemma TrimPadded(s: string)
    requires Trimmed(s)
    ensures Trim(s) == s && Trim(" " + s + " ") == s
  {
    var t := s + " ";
    assert (" " + s + " ")[1..] == t && t[0] == s[0];
    assert TrimLeft(" " + s + " ") == TrimLeft(t) == t;
    assert t[..|t| - 1] == s;
    assert TrimRight(t) == TrimRight(s) == s;
  }

  function Remove(s: string, x: char): (r: string)
    ensures |r| <= |s|
    ensures x in s ==> |r| < |s|
    ensures x !in s ==> r == s
  {
    if s == [] then []
    else
      var rest := Remove(s[1..], x);
      assert s == [s[0]] + s[1..];
      if s[0] == x then rest else [s[0]] + rest
  }

  lemma {:induction false} RemoveAppend(a: string, b: string, x: char)
    ensures Remove(a + b, x) == Remove(a, x) + Remove(b, x)
    decreases |a|
  {
    if a == [] {
      assert a + b == b;
    } else {
      var head := if a[0] == x then [] else [a[0]];
      assert (a + b)[0] == a[0] && (a + b)[1..] == a[1..] + b;
      calc {
        Remove(a + b, x);
        head + Remove(a[1..] + b, x);
        { RemoveAppend(a[1..], b, x); }
        head + (Remove(a[1..], x) + Remove(b, x));
        (head + Remove(a[1..], x)) + Remove(b, x);
        Remove(a, x) + Remove(b, x);
      }
    }
  }

  /** Nothing of one kind at the front of a string is longer than a run that another kind ends. */
  lemma RunIsLongest(a: string, x: string, b: string, kind: char -> bool)
    requires b <= a + x && (forall c :: c in b ==> kind(c)) && (x != [] ==> !kind(x[0]))
    ensures |b| <= |a|
  {
    var s := a + x;
    assert x != [] ==> s[|a|] == x[0];
    assert forall i :: 0 <= i < |b| ==> s[i] == b[i] && b[i] in b;
  }

  /** A longest run of characters of one kind at the front of a string is unique. */
  lemma SameRun(a: string, x: string, b: string, y: string, kind: char -> bool)
    requires a + x == b + y
    requires (forall c :: c in a ==> kind(c)) && (forall c :: c in b ==> kind(c))
    requires (x != [] ==> !kind(x[0])) && (y != [] ==> !kind(y[0]))
    ensures a == b && x == y
  {
    var s := a + x;
    RunIsLongest(a, x, b, kind);
    RunIsLongest(b, y, a, kind);
    assert a == s[..|a|] && x == s[|a|..] && b == s[..|b|] && y == s[|b|..];
  }
}
