/** `parse_fraction`: reading a "made/attempted" cell such as "10/20" as two numbers. */
module Fraction {
  import opened Cells

  /** How many times `c` occurs in `s`. */
  function Occurrences(s: string, c: char): nat
  {
    if s == [] then 0 else (if s[0] == c then 1 else 0) + Occurrences(s[1..], c)
  }

  lemma {:induction false} OccurrencesAppend(a: string, b: string, c: char)
    ensures Occurrences(a + b, c) == Occurrences(a, c) + Occurrences(b, c)
  {
    if a != [] {
      assert (a + b)[0] == a[0];
      assert (a + b)[1..] == a[1..] + b;
      OccurrencesAppend(a[1..], b, c);
    } else {
      assert a + b == b;
    }
  }

  lemma {:induction false} OccurrencesAbsent(s: string, c: char)
    requires forall k :: 0 <= k < |s| ==> s[k] != c
    ensures Occurrences(s, c) == 0
  {
    if s != [] {
      OccurrencesAbsent(s[1..], c);
    }
  }

  lemma NoSlashNoOccurrences(c: Cell)
    requires !(c.Text? && '/' in c.s)
    ensures c.Text? ==> Occurrences(c.s, '/') == 0
  {
    if c.Text? {
      OccurrencesAbsent(c.s, '/');
    }
  }

  /** The pieces joined back with the separator between them. */
  function Join(parts: seq<string>, sep: char): string
    requires |parts| > 0
  {
    if |parts| == 1 then parts[0] else parts[0] + [sep] + Join(parts[1..], sep)
  }

  /** Python's `s.split(sep)`: the pieces between the separators, empty pieces kept. */
  function Split(s: string, sep: char): (parts: seq<string>)
    ensures |parts| == Occurrences(s, sep) + 1
    ensures Join(parts, sep) == s
    ensures forall k :: 0 <= k < |parts| ==> sep !in parts[k]
    decreases |s|
  {
    var i := IndexOf(s, sep);
    if i == |s| then
      OccurrencesAbsent(s, sep);
      [s]
    else
      var rest := Split(s[i + 1..], sep);
      assert s == s[..i] + ([sep] + s[i + 1..]);
      OccurrencesAbsent(s[..i], sep);
      assert Occurrences([sep], sep) == 1 by { assert [sep][1..] == []; }
      OccurrencesAppend(s[..i], [sep] + s[i + 1..], sep);
      OccurrencesAppend([sep], s[i + 1..], sep);
      assert ([s[..i]] + rest)[1..] == rest;
      [s[..i]] + rest
  }

  /** The text before the first '/'. */
  function Before(s: string): string
  {
    s[..IndexOf(s, '/')]
  }

  /** The text after the first '/' (empty when there is none). */
  function After(s: string): string
  {
    var i := IndexOf(s, '/');
    if i < |s| then s[i + 1..] else ""
  }

  lemma SplitOfOneSlash(s: string)
    requires Occurrences(s, '/') == 1
    ensures Split(s, '/') == [Before(s), After(s)]
  {
    var i := IndexOf(s, '/');
    var parts := Split(s, '/');
    assert |parts| == 2;
    if i == |s| {
      OccurrencesAbsent(s, '/');
    }
    assert parts == [s[..i]] + Split(s[i + 1..], '/');
  }

  /** `parse_fraction(s)` (nba_analysis.py): a string holding a '/' is split on every '/';
      exactly two pieces that both parse as numbers give (numerator, denominator); every
      other input, a cell that is not a string included, gives (None, None). */
  function ParseFraction(c: Cell): (r: (Option<real>, Option<real>))
    ensures r.0.Some? <==> r.1.Some?
    ensures !c.Text? ==> r == (None, None)
    ensures c.Text? && Occurrences(c.s, '/') != 1 ==> r == (None, None)
    ensures r.0.Some? ==> c.Text? && r == (ParseDecimal(Before(c.s)), ParseDecimal(After(c.s)))
  {
    if c.Text? && '/' in c.s then
      var parts := Split(c.s, '/');
      if |parts| == 2 && ParseDecimal(parts[0]).Some? && ParseDecimal(parts[1]).Some? then
        SplitOfOneSlash(c.s);
        (ParseDecimal(parts[0]), ParseDecimal(parts[1]))
      else
        (None, None)
    else
      NoSlashNoOccurrences(c);
      (None, None)
  }

  lemma IndexOfJoined(x: string, y: string)
    requires '/' !in x
    ensures IndexOf(x + "/" + y, '/') == |x|
  {
    var s := x + "/" + y;
    var i := IndexOf(s, '/');
    assert s[|x|] == '/';
    assert forall k :: 0 <= k < |x| ==> s[k] == x[k];
  }

  /** Two slash-free numeric texts around one '/' parse to those two numbers, in order. */
  lemma OneSlashJoined(x: string, y: string)
    requires '/' !in x && '/' !in y
    ensures Occurrences(x + "/" + y, '/') == 1
  {
    OccurrencesAppend(x, "/" + y, '/');
    OccurrencesAppend("/", y, '/');
    OccurrencesAbsent(x, '/');
    OccurrencesAbsent(y, '/');
    assert x + "/" + y == x + ("/" + y);
  }

  lemma PiecesJoined(x: string, y: string)
    requires '/' !in x
    ensures Before(x + "/" + y) == x && After(x + "/" + y) == y
  {
    IndexOfJoined(x, y);
  }

  /** Two slash-free numeric texts around one '/' parse to those two numbers, in order. */
  lemma ParseFractionOfPair(x: string, y: string)
    requires '/' !in x && '/' !in y
    requires ParseDecimal(x).Some? && ParseDecimal(y).Some?
    ensures ParseFraction(Text(x + "/" + y)) == (ParseDecimal(x), ParseDecimal(y))
  {
    var s := x + "/" + y;
    OneSlashJoined(x, y);
    PiecesJoined(x, y);
    SplitOfOneSlash(s);
  }

  lemma TenTwentyDigits()
    ensures NatToString(10) == "10" && NatToString(20) == "20"
    ensures "10" + "/" + "20" == "10/20"
    ensures '/' !in "10" && '/' !in "20"
  {
    assert "10"[0] != '/' && "10"[1] != '/';
    assert "20"[0] != '/' && "20"[1] != '/';
  }

  /** "10/20" reads as (10, 20). */
  lemma ParseFractionOfTenTwenty()
    ensures ParseFraction(Text("10/20")) == (Some(10.0), Some(20.0))
  {
    TenTwentyDigits();
    ParseDecimalOfNatToString(10);
    ParseDecimalOfNatToString(20);
    ParseFractionOfPair("10", "20");
  }

  lemma RejectsWithoutSlash(s: string)
    requires forall k :: 0 <= k < |s| ==> s[k] != '/'
    ensures ParseFraction(Text(s)) == (None, None)
  {
    OccurrencesAbsent(s, '/');
  }

  lemma RejectsThreePieces()
    ensures ParseFraction(Text("1/2/3")) == (None, None)
  {
    assert IndexOf("1/2/3", '/') == 1;
    assert After("1/2/3")[1] == '/';
  }

  lemma RejectsNonNumeric()
    ensures ParseFraction(Text("a/b")) == (None, None)
  {
    assert IndexOf("a/b", '/') == 1;
    assert Before("a/b")[0] == 'a';
  }

  /** "abc", "1/2/3", "a/b", "" and a cell that is not a string all read as (None, None). */
  lemma ParseFractionRejects()
    ensures ParseFraction(Text("abc")) == (None, None)
    ensures ParseFraction(Text("1/2/3")) == (None, None)
    ensures ParseFraction(Text("a/b")) == (None, None)
    ensures ParseFraction(Text("")) == (None, None)
    ensures ParseFraction(Float(0.5)) == (None, None)
  {
    RejectsWithoutSlash("abc");
    RejectsWithoutSlash("");
    RejectsThreePieces();
    RejectsNonNumeric();
  }
}
