/**
 * The string and integer helpers of libtracker-common that
 * tests/libtracker-common/tracker-type-utils-test.c exercises: joining a
 * string vector, finding a string in a vector, boolean text to "1"/"0",
 * the decimal renderers of the integer types, the checked unsigned parse and
 * the GSList to string vector conversion.
 *
 * Every one of them maps its arguments to a fresh value, so all are functions.
 * A C `NULL` string, vector or list cannot be written as a Dafny `string` or
 * `seq`, so the NULL-argument failures the tests trap are excluded by typing;
 * the one NULL that is a legal value of its C type, the empty GSList, is a
 * `requires`.
 */
module TypeUtils {
  import opened Wrappers
  import opened Ints

  // ---------------------------------------------------------------------
  // Splitting and joining string vectors (g_strsplit and
  // tracker_string_list_to_string)
  // ---------------------------------------------------------------------

  /** `s` has no occurrence of the separator `sep`. */
  predicate NoSep(s: string, sep: char) {
    forall i :: 0 <= i < |s| ==> s[i] != sep
  }

  /** The pieces joined with `sep` between consecutive pieces. */
  function Join(pieces: seq<string>, sep: char): string {
    if |pieces| == 0 then ""
    else if |pieces| == 1 then pieces[0]
    else pieces[0] + [sep] + Join(pieces[1..], sep)
  }

  /**
   * The pieces of a string cut at every `sep`, empty pieces included; there is
   * always at least one piece.
   */
  function SplitPieces(s: string, sep: char): (r: seq<string>)
    ensures |r| >= 1
    ensures forall i :: 0 <= i < |r| ==> NoSep(r[i], sep)
    ensures Join(r, sep) == s
    decreases |s|
  {
    if s == [] then [""]
    else
      var rest := SplitPieces(s[1..], sep);
      if s[0] == sep then
        assert s == [sep] + Join(rest, sep);
        [""] + rest
      else
        var r := [[s[0]] + rest[0]] + rest[1..];
        assert |rest| > 1 ==> Join(rest, sep) == rest[0] + [sep] + Join(rest[1..], sep);
        assert r[1..] == rest[1..];
        assert s == [s[0]] + s[1..];
        r
  }

  /**
   * g_strsplit (s, sep, -1), the way the tests cut their sample texts: the
   * empty string gives the empty vector, any other string its pieces.
   */
  function Split(s: string, sep: char): (r: seq<string>)
    ensures Join(r, sep) == s
    ensures forall i :: 0 <= i < |r| ==> NoSep(r[i], sep)
  {
    if s == [] then [] else SplitPieces(s, sep)
  }

  /** Cutting `a + tail` where `a` has no separator: `a` glues onto the first piece of `tail`. */
  lemma {:induction false} SplitPiecesPrefix(a: string, tail: string, sep: char)
    requires NoSep(a, sep)
    ensures SplitPieces(a + tail, sep)
         == [a + SplitPieces(tail, sep)[0]] + SplitPieces(tail, sep)[1..]
    decreases |a|
  {
    if a != [] {
      var a' := a[1..];
      assert (a + tail)[1..] == a' + tail;
      SplitPiecesPrefix(a', tail, sep);
      assert [a[0]] + (a' + SplitPieces(tail, sep)[0]) == a + SplitPieces(tail, sep)[0];
    } else {
      var t := SplitPieces(tail, sep);
      assert a + tail == tail;
      assert a + t[0] == t[0];
      assert t == [t[0]] + t[1..];
    }
  }

  /** A leading separator cuts off an empty first piece. */
  lemma SplitPiecesAtSep(rest: string, sep: char)
    ensures SplitPieces([sep] + rest, sep) == [""] + SplitPieces(rest, sep)
  {
    assert ([sep] + rest)[1..] == rest;
  }

  /** Splitting undoes joining when no piece contains the separator. */
  lemma {:induction false} SplitJoin(pieces: seq<string>, sep: char)
    requires |pieces| > 0
    requires forall i :: 0 <= i < |pieces| ==> NoSep(pieces[i], sep)
    ensures SplitPieces(Join(pieces, sep), sep) == pieces
  {
    if |pieces| == 1 {
      SplitPiecesPrefix(pieces[0], "", sep);
      assert pieces[0] + "" == pieces[0];
    } else {
      var rest := Join(pieces[1..], sep);
      assert Join(pieces, sep) == pieces[0] + ([sep] + rest);
      SplitJoin(pieces[1..], sep);
      SplitPiecesAtSep(rest, sep);
      SplitPiecesPrefix(pieces[0], [sep] + rest, sep);
      assert pieces[0] + "" == pieces[0];
      assert pieces == [pieces[0]] + pieces[1..];
    }
  }

  /** g_strsplit of a joined vector gives the vector back, unless the join is empty. */
  lemma SplitOfJoin(pieces: seq<string>, sep: char)
    requires |pieces| > 0 && Join(pieces, sep) != ""
    requires forall i :: 0 <= i < |pieces| ==> NoSep(pieces[i], sep)
    ensures Split(Join(pieces, sep), sep) == pieces
  {
    SplitJoin(pieces, sep);
  }

  /** How many pieces tracker_string_list_to_string joins for a given `size`. */
  function JoinCount(strv: seq<string>, size: int): (n: nat)
    ensures n <= |strv|
  {
    if 0 <= size <= |strv| then size else |strv|
  }

  /**
   * tracker_string_list_to_string (strv, size, sep): the first `size` pieces
   * joined with `sep`; a `size` of -1, or one past the end of the vector, joins
   * them all.
   */
  function StringListToString(strv: seq<string>, size: int, sep: char): (r: string)
    ensures 0 <= size <= |strv| ==> r == Join(strv[..size], sep)
    ensures size < 0 || size >= |strv| ==> r == Join(strv, sep)
  {
    var n := JoinCount(strv, size);
    assert n == |strv| ==> strv[..n] == strv;
    Join(strv[..n], sep)
  }

  /**
   * Cutting the joined text at `sep` gives back exactly the pieces that were
   * joined, when no piece contains `sep` and the text is not empty.
   */
  lemma StringListToStringSplits(strv: seq<string>, size: int, sep: char)
    requires forall i :: 0 <= i < |strv| ==> NoSep(strv[i], sep)
    requires StringListToString(strv, size, sep) != ""
    ensures Split(StringListToString(strv, size, sep), sep) == strv[..JoinCount(strv, size)]
  {
    var n := JoinCount(strv, size);
    assert n > 0;
    SplitOfJoin(strv[..n], sep);
  }

  // ---------------------------------------------------------------------
  // tracker_string_in_string_list
  // ---------------------------------------------------------------------

  /** The position of the first element equal to `s`, or -1 when there is none. */
  function StringInStringList(s: string, list: seq<string>): (r: int)
    ensures -1 <= r < |list|
    ensures r == -1 <==> s !in list
    ensures r >= 0 ==> list[r] == s && s !in list[..r]
  {
    if list == [] then -1
    else if list[0] == s then 0
    else
      var k := StringInStringList(s, list[1..]);
      assert list == [list[0]] + list[1..];
      if k == -1 then -1
      else
        assert list[..k + 1] == [list[0]] + list[1..][..k];
        k + 1
  }

  // ---------------------------------------------------------------------
  // tracker_boolean_as_text_to_number
  // ---------------------------------------------------------------------

  /** ASCII lower-casing of one character; other characters are left alone. */
  function AsciiLower(c: char): char {
    if 'A' <= c <= 'Z' then (c as int + 32) as char else c
  }

  /** `a` and `b` are equal when ASCII case is ignored (g_ascii_strcasecmp == 0). */
  predicate EqualIgnoringCase(a: string, b: string) {
    |a| == |b| && forall i :: 0 <= i < |a| ==> AsciiLower(a[i]) == AsciiLower(b[i])
  }

  /** Boolean text to its number: any casing of "true" gives "1", of "false" gives "0", anything else itself. */
  function BooleanAsTextToNumber(value: string): (r: string)
    ensures r == "1" <==> EqualIgnoringCase(value, "true") || value == "1"
    ensures r == "0" <==> EqualIgnoringCase(value, "false") || value == "0"
    ensures r != "1" && r != "0" ==> r == value
  {
    if EqualIgnoringCase(value, "true") then "1"
    else if EqualIgnoringCase(value, "false") then "0"
    else value
  }

  /** Mapping twice is mapping once: "1" and "0" are left as they are. */
  lemma BooleanAsTextToNumberIdempotent(value: string)
    ensures BooleanAsTextToNumber(BooleanAsTextToNumber(value)) == BooleanAsTextToNumber(value)
  {
    var r := BooleanAsTextToNumber(value);
    if r == "1" {
      assert AsciiLower(r[0]) != AsciiLower("true"[0]);
    } else if r == "0" {
      assert AsciiLower(r[0]) != AsciiLower("false"[0]);
    }
  }

  /** The nine values of the boolean test. */
  lemma BooleanTestValues()
    ensures BooleanAsTextToNumber("True") == "1"
    ensures BooleanAsTextToNumber("TRUE") == "1"
    ensures BooleanAsTextToNumber("true") == "1"
    ensures BooleanAsTextToNumber("False") == "0"
    ensures BooleanAsTextToNumber("FALSE") == "0"
    ensures BooleanAsTextToNumber("false") == "0"
    ensures BooleanAsTextToNumber("Thrue") == "Thrue"
    ensures BooleanAsTextToNumber("Falsez") == "Falsez"
    ensures BooleanAsTextToNumber("Other invalid value") == "Other invalid value"
  {
    assert EqualIgnoringCase("True", "true");
    assert EqualIgnoringCase("TRUE", "true");
    assert EqualIgnoringCase("False", "false");
    assert EqualIgnoringCase("FALSE", "false");
    assert AsciiLower("Thrue"[1]) != AsciiLower("true"[1]);
    assert AsciiLower("Thrue"[0]) != AsciiLower("false"[0]);
  }

  // ---------------------------------------------------------------------
  // Decimal text of integers (tracker_*_to_string, tracker_string_to_uint)
  // ---------------------------------------------------------------------

  predicate IsDigit(c: char) {
    '0' <= c <= '9'
  }

  predicate AllDigits(s: string) {
    forall i :: 0 <= i < |s| ==> IsDigit(s[i])
  }

  /** A digit string without a superfluous leading zero. */
  predicate Canonical(s: string) {
    |s| > 0 && AllDigits(s) && (s[0] == '0' ==> |s| == 1)
  }

  function DigitChar(d: int): (c: char)
    requires 0 <= d < 10
    ensures IsDigit(c)
  {
    ('0' as int + d) as char
  }

  /** The base-10 digits of `n`, most significant first. */
  function Digits(n: nat): (r: string)
    ensures Canonical(r)
    ensures r[0] == '0' ==> n == 0
    decreases n
  {
    if n < 10 then [DigitChar(n)]
    else
      var p := Digits(n / 10);
      p + [DigitChar(n % 10)]
  }

  /** The number a digit string denotes. */
  function DigitsValue(s: string): nat
    requires AllDigits(s)
  {
    if s == [] then 0
    else DigitsValue(s[..|s| - 1]) * 10 + (s[|s| - 1] as int - '0' as int)
  }

  lemma {:induction false} DigitsValueOfDigits(n: nat)
    ensures DigitsValue(Digits(n)) == n
    decreases n
  {
    if n >= 10 {
      var s := Digits(n);
      DigitsValueOfDigits(n / 10);
      assert s[..|s| - 1] == Digits(n / 10);
    }
  }

  lemma {:induction false} CanonicalValuePositive(s: string)
    requires Canonical(s) && s[0] != '0'
    ensures DigitsValue(s) > 0
    decreases |s|
  {
    if |s| > 1 {
      var p := s[..|s| - 1];
      assert p[0] == s[0];
      CanonicalValuePositive(p);
    }
  }

  lemma {:induction false} DigitsOfDigitsValue(s: string)
    requires Canonical(s)
    ensures Digits(DigitsValue(s)) == s
    decreases |s|
  {
    if |s| > 1 {
      var p := s[..|s| - 1];
      assert p[0] == s[0];
      CanonicalValuePositive(p);
      DigitsOfDigitsValue(p);
      var v := DigitsValue(s);
      var d := s[|s| - 1] as int - '0' as int;
      assert v / 10 == DigitsValue(p) && v % 10 == d;
      assert s == p + [s[|s| - 1]];
    }
  }

  /** Decimal text of a signed integer: a '-' before the digits of a negative value. */
  function DecimalString(n: int): string {
    if n < 0 then "-" + Digits(-n) else Digits(n)
  }

  /**
   * The text a key file or a caller parses back as an integer: an optional '-'
   * followed by at least one digit.
   */
  function ParseDecimal(s: string): (r: Option<int>)
    ensures r.Some? ==> |s| > 0
  {
    if |s| > 1 && s[0] == '-' && AllDigits(s[1..]) then
      var magnitude: int := DigitsValue(s[1..]);
      Some(-magnitude)
    else if |s| > 0 && AllDigits(s) then Some(DigitsValue(s))
    else None
  }

  /** Rendering then parsing gives the number back, and the text is canonical. */
  lemma DecimalRoundTrip(n: int)
    ensures ParseDecimal(DecimalString(n)) == Some(n)
    ensures |DecimalString(n)| > 0 && (DecimalString(n)[0] == '-' <==> n < 0)
    ensures n >= 0 ==> Canonical(DecimalString(n))
    ensures n < 0 ==> Canonical(DecimalString(n)[1..]) && DecimalString(n)[1..] != "0"
  {
    if n < 0 {
      NegativeRoundTrip(n);
    } else {
      DigitsValueOfDigits(n);
      var s := Digits(n);
      assert IsDigit(s[0]);
    }
  }

  lemma NegativeRoundTrip(n: int)
    requires n < 0
    ensures ParseDecimal(DecimalString(n)) == Some(n)
    ensures Canonical(DecimalString(n)[1..]) && DecimalString(n)[1..] != "0"
  {
    var d := Digits(-n);
    DigitsValueOfDigits(-n);
    var s := DecimalString(n);
    assert s == "-" + d && s[1..] == d;
    assert |s| > 1 && s[0] == '-';
  }

  /** tracker_long_to_string */
  function LongToString(n: int64): (r: string)
    ensures ParseDecimal(r) == Some(n as int)
    ensures |r| > 0 && (r[0] == '-' <==> n < 0)
    ensures Canonical(if n < 0 then r[1..] else r)
  {
    DecimalRoundTrip(n);
    DecimalString(n)
  }

  /** tracker_int_to_string */
  function IntToString(n: int32): (r: string)
    ensures ParseDecimal(r) == Some(n as int)
    ensures |r| > 0 && (r[0] == '-' <==> n < 0)
    ensures Canonical(if n < 0 then r[1..] else r)
  {
    LongToString(n)
  }

  /** tracker_uint_to_string */
  function UintToString(n: uint32): (r: string)
    ensures Canonical(r) && DigitsValue(r) == n as int
  {
    DecimalRoundTrip(n);
    DigitsValueOfDigits(n);
    DecimalString(n)
  }

  /** tracker_gint32_to_string */
  function Gint32ToString(n: int32): (r: string)
    ensures ParseDecimal(r) == Some(n as int)
    ensures |r| > 0 && (r[0] == '-' <==> n < 0)
    ensures Canonical(if n < 0 then r[1..] else r)
  {
    LongToString(n)
  }

  /** tracker_guint32_to_string */
  function Guint32ToString(n: uint32): (r: string)
    ensures Canonical(r) && DigitsValue(r) == n as int
  {
    UintToString(n)
  }

  /**
   * tracker_string_to_uint: `Some(value)` (TRUE, *ret = value) for a
   * non-empty digit string whose value fits a guint, `None` (FALSE) otherwise.
   */
  function StringToUint(s: string): (r: Option<uint32>)
    ensures r.Some? <==> |s| > 0 && AllDigits(s) && DigitsValue(s) < TWO_32
    ensures r.Some? ==> r.value as int == DigitsValue(s)
  {
    if |s| > 0 && AllDigits(s) && DigitsValue(s) < TWO_32 then Some(DigitsValue(s) as uint32)
    else None
  }

  /** Parsing inverts rendering for every guint ... */
  lemma StringToUintOfUintToString(n: uint32)
    ensures StringToUint(UintToString(n)) == Some(n)
  {
  }

  /** ... and rendering inverts parsing for every canonical digit string. */
  lemma UintToStringOfStringToUint(s: string)
    requires Canonical(s) && StringToUint(s).Some?
    ensures UintToString(StringToUint(s).value) == s
  {
    DigitsOfDigitsValue(s);
  }

  /** The values the renderer tests check. */
  lemma RendererTestValues()
    ensures LongToString(10050) == "10050" && LongToString(-9950) == "-9950"
    ensures IntToString(654) == "654" && IntToString(-963) == "-963"
    ensures UintToString(100) == "100" && Guint32ToString(100) == "100"
    ensures Gint32ToString(100) == "100" && Gint32ToString(-96) == "-96"
  {
    DigitsTestValues();
    SignedTestValues();
    assert UintToString(100) == Digits(100) && Guint32ToString(100) == Digits(100);
  }

  lemma SignedTestValues()
    ensures DecimalString(10050) == "10050" && DecimalString(-9950) == "-9950"
    ensures DecimalString(654) == "654" && DecimalString(-963) == "-963"
    ensures DecimalString(100) == "100" && DecimalString(-96) == "-96"
  {
    DigitsTestValues();
  }

  lemma DigitsTestValues()
    ensures Digits(10050) == "10050" && Digits(9950) == "9950"
    ensures Digits(654) == "654" && Digits(963) == "963"
    ensures Digits(100) == "100" && Digits(96) == "96"
  {
    assert Digits(1) == "1" && Digits(6) == "6" && Digits(9) == "9";
    assert Digits(10) == "10";
    assert Digits(100) == "100";
    assert Digits(1005) == "1005";
    assert Digits(99) == "99";
    assert Digits(995) == "995";
    assert Digits(65) == "65";
    assert Digits(96) == "96";
  }

  /** The values the unsigned parse test checks. */
  lemma StringToUintTestValues()
    ensures StringToUint("10") == Some(10)
    ensures StringToUint("i am not a number") == None
    ensures StringToUint("-20") == None
  {
    assert "10"[..1] == "1";
    assert DigitsValue("1") == 1;
    assert DigitsValue("10") == 10;
    assert !IsDigit("i am not a number"[0]);
    assert !IsDigit("-20"[0]);
  }

  // ---------------------------------------------------------------------
  // tracker_gslist_to_string_list
  // ---------------------------------------------------------------------

  /** A GSList of strings; `Nil` is the NULL (empty) list. */
  datatype SList = Nil | Cons(head: string, tail: SList)

  function Length(l: SList): nat {
    if l.Nil? then 0 else 1 + Length(l.tail)
  }

  /** The `i`-th element of the list, following the `next` links from the head. */
  function Nth(l: SList, i: nat): string
    requires i < Length(l)
  {
    if i == 0 then l.head else Nth(l.tail, i - 1)
  }

  /** The elements of a list as a vector, in list order. */
  function ToVector(l: SList): (r: seq<string>)
    ensures |r| == Length(l)
    ensures forall i :: 0 <= i < |r| ==> r[i] == Nth(l, i)
  {
    if l.Nil? then [] else [l.head] + ToVector(l.tail)
  }

  /** The list with the elements of a vector, in order (g_slist_prepend from the last one). */
  function FromVector(v: seq<string>): (l: SList)
    ensures Length(l) == |v|
  {
    if v == [] then Nil else Cons(v[0], FromVector(v[1..]))
  }

  /**
   * tracker_gslist_to_string_list: a vector holding the list's strings in list
   * order. The empty (NULL) list is refused by the source.
   */
  function GSListToStringList(list: SList): (r: seq<string>)
    requires list != Nil
    ensures |r| == Length(list) > 0
    ensures forall i :: 0 <= i < |r| ==> r[i] == Nth(list, i)
  {
    ToVector(list)
  }

  /** Converting a vector to a list and back gives the vector. */
  lemma {:induction false} ToVectorFromVector(v: seq<string>)
    ensures ToVector(FromVector(v)) == v
  {
    if v != [] {
      ToVectorFromVector(v[1..]);
      assert v == [v[0]] + v[1..];
    }
  }

  /** Converting a list to a vector and back gives the list. */
  lemma {:induction false} FromVectorToVector(l: SList)
    ensures FromVector(ToVector(l)) == l
  {
    if l.Cons? {
      FromVectorToVector(l.tail);
      assert ToVector(l)[1..] == ToVector(l.tail);
    }
  }

  // ---------------------------------------------------------------------
  // The vectors the tests build
  // ---------------------------------------------------------------------

  /**
   * The list-joining test. Its vector is g_strsplit ("one two three four", " ", 4):
   * the four words joined by ' ' are that text and hold no ' ', so by SplitOfJoin
   * splitting the text gives them back.
   */
  lemma StringListToStringTestValues()
    ensures Join(["one", "two", "three", "four"], ' ') == "one two three four"
    ensures forall i :: 0 <= i < 4 ==> NoSep(["one", "two", "three", "four"][i], ' ')
    ensures StringListToString(["one", "two", "three", "four"], 4, ' ') == "one two three four"
    ensures StringListToString(["one", "two", "three", "four"], 3, '_') == "one_two_three"
    ensures StringListToString(["one", "two", "three", "four"], -1, ' ') == "one two three four"
    ensures StringListToString(["one", "two", "three", "four"], 6, ' ') == "one two three four"
  {
    var p := ["one", "two", "three", "four"];
    JoinFourWords(p);
    assert p[..4] == p;
    assert forall i :: 0 <= i < |p| ==> NoSep(p[i], ' ');
    JoinThreeWords(p[..3]);
  }

  lemma JoinFourWords(p: seq<string>)
    requires p == ["one", "two", "three", "four"]
    ensures Join(p, ' ') == "one two three four"
  {
    assert p[1..] == ["two", "three", "four"];
    assert p[2..] == ["three", "four"];
    assert p[3..] == ["four"];
    assert Join(p[3..], ' ') == "four";
    assert Join(p[2..], ' ') == "three four";
    assert Join(p[1..], ' ') == "two three four";
  }

  lemma JoinThreeWords(q: seq<string>)
    requires q == ["one", "two", "three"]
    ensures Join(q, '_') == "one_two_three"
  {
    assert q[1..] == ["two", "three"] && q[2..] == ["three"];
    assert Join(q[2..], '_') == "three";
    assert Join(q[1..], '_') == "two_three";
  }

  /**
   * The vector the search test gets from g_strsplit on ' ' of its sentence
   * "This is an extract of text with different terms an props like Audio:Title ...".
   */
  function SearchTestPieces(): seq<string> {
    ["This", "is", "an", "extract", "of", "text", "with", "different", "terms", "an", "props", "like", "Audio:Title", "..."]
  }

  /** The search test: the positions of "is" and "Audio:Title" in that vector. */
  lemma StringInStringListTestValues()
    ensures StringInStringList("is", SearchTestPieces()) == 1
    ensures StringInStringList("Audio:Title", SearchTestPieces()) == 12
  {
    var p := SearchTestPieces();
    assert p[0] != "is" && p[1] == "is";
    assert "is" !in p[..1];
    FirstIndex("is", p, 1);
    AudioTitleFirstAt(p);
  }

  lemma AudioTitleFirstAt(p: seq<string>)
    requires p == SearchTestPieces()
    ensures StringInStringList("Audio:Title", p) == 12
  {
    assert p[12] == "Audio:Title";
    assert forall i :: 0 <= i < 12 ==> p[i] != "Audio:Title";
    assert "Audio:Title" !in p[..12];
    FirstIndex("Audio:Title", p, 12);
  }

  /** An index holding `s` with no earlier occurrence is the position the search finds. */
  lemma FirstIndex(s: string, list: seq<string>, i: nat)
    requires i < |list| && list[i] == s && s !in list[..i]
    ensures StringInStringList(s, list) == i
  {
  }

  /** The list test: the list built by prepending "four", "three", "two", "one". */
  lemma GSListTestValues()
    ensures GSListToStringList(Cons("one", Cons("two", Cons("three", Cons("four", Nil)))))
         == ["one", "two", "three", "four"]
  {
  }
}
