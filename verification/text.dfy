/** String helpers with Python semantics: `str.split`, `str.split(sep, 1)`,
    slicing with clamped bounds, `str.strip` and `int(s, 16)`. */
module Text {
  import opened Outcomes

  /** Number of occurrences of `c` in `s`. */
  function Count(s: string, c: char): nat
  {
    if |s| == 0 then 0 else (if s[0] == c then 1 else 0) + Count(s[1..], c)
  }

  lemma CountZero(s: string, c: char)
    ensures Count(s, c) == 0 <==> c !in s
  {
    if |s| > 0 {
      CountZero(s[1..], c);
      assert s == [s[0]] + s[1..];
    }
  }

  /** Glue the parts back together with `sep` between neighbours. */
  function Join(parts: seq<string>, sep: char): string
    requires |parts| > 0
  {
    if |parts| == 1 then parts[0] else parts[0] + [sep] + Join(parts[1..], sep)
  }

  /** Python's `s.split(sep)`: cut at EVERY occurrence of `sep`. */
  function Split(s: string, sep: char): (parts: seq<string>)
    ensures |parts| == Count(s, sep) + 1
    ensures forall k :: 0 <= k < |parts| ==> sep !in parts[k]
  {
    if |s| == 0 then [""]
    else
      var rest := Split(s[1..], sep);
      if s[0] == sep then [""] + rest
      else [[s[0]] + rest[0]] + rest[1..]
  }

  /** Joining the pieces of a split gives back the original text. */
  lemma {:induction false} SplitJoin(s: string, sep: char)
    ensures Join(Split(s, sep), sep) == s
  {
    if |s| > 0 {
      SplitJoin(s[1..], sep);
      var rest := Split(s[1..], sep);
      if s[0] == sep {
        assert Split(s, sep) == [""] + rest;
        assert s == [sep] + s[1..];
      } else {
        var parts := Split(s, sep);
        assert parts == [[s[0]] + rest[0]] + rest[1..];
        if |rest| == 1 {
          assert Join(rest, sep) == rest[0];
        } else {
          assert Join(rest, sep) == rest[0] + [sep] + Join(rest[1..], sep);
          assert parts[1..] == rest[1..];
        }
      }
    }
  }

  /** Splitting a join of separator-free pieces recovers the pieces. */
  lemma {:induction false} JoinSplit(parts: seq<string>, sep: char)
    requires |parts| > 0
    requires forall k :: 0 <= k < |parts| ==> sep !in parts[k]
    ensures Split(Join(parts, sep), sep) == parts
  {
    if |parts| == 1 {
      NoSepSplit(parts[0], sep);
    } else {
      JoinSplit(parts[1..], sep);
      SplitAppend(parts[0], Join(parts[1..], sep), sep);
      assert parts == [parts[0]] + parts[1..];
    }
  }

  /** A separator-free text splits into itself. */
  lemma {:induction false} NoSepSplit(s: string, sep: char)
    requires sep !in s
    ensures Split(s, sep) == [s]
  {
    if |s| > 0 {
      NoSepSplit(s[1..], sep);
      assert s == [s[0]] + s[1..];
    }
  }

  /** Splitting `a + sep + b` with a separator-free `a` puts `a` first. */
  lemma {:induction false} SplitAppend(a: string, b: string, sep: char)
    requires sep !in a
    ensures Split(a + [sep] + b, sep) == [a] + Split(b, sep)
  {
    if |a| == 0 {
      assert a + [sep] + b == [sep] + b;
      assert ([sep] + b)[1..] == b;
    } else {
      SplitAppend(a[1..], b, sep);
      assert (a + [sep] + b)[1..] == a[1..] + [sep] + b;
      assert a == [a[0]] + a[1..];
    }
  }

  /** Index of the first occurrence of `c` in `s`. */
  function IndexOf(s: string, c: char): (k: nat)
    requires c in s
    ensures k < |s| && s[k] == c && c !in s[..k]
  {
    if s[0] == c then 0
    else
      assert c in s[1..] by { assert s == [s[0]] + s[1..]; }
      var k := 1 + IndexOf(s[1..], c);
      assert s[..k] == [s[0]] + s[1..][..k - 1];
      k
  }

  /** Python's `s.split(sep, 1)`: cut at the FIRST occurrence only. */
  function SplitOnce(s: string, sep: char): (parts: seq<string>)
    ensures sep !in s ==> parts == [s]
    ensures sep in s ==> |parts| == 2 && sep !in parts[0] && parts[0] + [sep] + parts[1] == s
  {
    if sep !in s then [s]
    else
      var k := IndexOf(s, sep);
      assert s == s[..k] + [sep] + s[k + 1..];
      [s[..k], s[k + 1..]]
  }

  /** Python slicing `s[a:b]` for non-negative bounds: out-of-range bounds
      are clamped to the length instead of raising. */
  function Slice(s: string, a: nat, b: nat): (t: string)
    requires a <= b
    ensures |t| == (if b <= |s| then b - a else if a <= |s| then |s| - a else 0)
  {
    var lo := if a <= |s| then a else |s|;
    var hi := if b <= |s| then b else |s|;
    s[lo..hi]
  }

  /** The characters Python 2's `str.strip()` removes: space, tab, line
      feed, vertical tab, form feed and carriage return. */
  predicate IsSpace(c: char)
  {
    c == ' ' || ('\t' <= c <= '\r')
  }

  function StripLeft(s: string): string
  {
    if |s| > 0 && IsSpace(s[0]) then StripLeft(s[1..]) else s
  }

  function StripRight(s: string): string
  {
    if |s| > 0 && IsSpace(s[|s| - 1]) then StripRight(s[..|s| - 1]) else s
  }

  function Strip(s: string): string
  {
    StripRight(StripLeft(s))
  }

  predicate IsHexDigit(c: char)
  {
    '0' <= c <= '9' || 'a' <= c <= 'f' || 'A' <= c <= 'F'
  }

  function HexValue(c: char): (v: nat)
    requires IsHexDigit(c)
    ensures v < 16
  {
    if '0' <= c <= '9' then c as int - '0' as int
    else if 'a' <= c <= 'f' then c as int - 'a' as int + 10
    else c as int - 'A' as int + 10
  }

  /** Big-endian value of a run of hex digits; `None` when some character
      is not a hex digit. */
  function HexNumber(s: string): Option<nat>
  {
    if |s| == 0 then Some(0)
    else
      var high := HexNumber(s[..|s| - 1]);
      if high.Some? && IsHexDigit(s[|s| - 1]) then Some(16 * high.value + HexValue(s[|s| - 1]))
      else None
  }

  /** Python 2's `int(s, 16)`: surrounding whitespace, an optional sign and
      an optional `0x` prefix are accepted; anything else that is not a
      non-empty run of hex digits raises `ValueError` (here `None`). */
  function IntBase16(s: string): (r: Option<int>)
    ensures |Strip(s)| == 0 ==> r.None?
    ensures r.Some? && r.value < 0 ==> Strip(s)[0] == '-'
  {
    var t := Strip(s);
    var negative := |t| > 0 && t[0] == '-';
    var unsigned := if |t| > 0 && (t[0] == '+' || t[0] == '-') then t[1..] else t;
    var digits :=
      if |unsigned| >= 3 && unsigned[0] == '0' && (unsigned[1] == 'x' || unsigned[1] == 'X')
      then unsigned[2..] else unsigned;
    var magnitude := HexNumber(digits);
    if |digits| > 0 && magnitude.Some? then
      var m: int := magnitude.value;
      Some(if negative then -m else m)
    else None
  }

  /** Two hex digits parse to the byte they spell. */
  lemma HexPair(s: string)
    requires |s| == 2 && IsHexDigit(s[0]) && IsHexDigit(s[1])
    ensures IntBase16(s) == Some(16 * HexValue(s[0]) + HexValue(s[1]))
    ensures 0 <= 16 * HexValue(s[0]) + HexValue(s[1]) <= 255
  {
    assert StripLeft(s) == s;
    assert StripRight(s) == s;
    assert s[..1][..0] == [];
    assert s[..1][..0] == [];
    assert HexNumber(s[..1]) == Some(HexValue(s[0]));
  }

  /** `HexNumber` succeeds only on runs of hex digits. */
  lemma {:induction false} HexNumberDigits(s: string)
    requires HexNumber(s).Some?
    ensures forall k :: 0 <= k < |s| ==> IsHexDigit(s[k])
  {
    if |s| > 0 {
      HexNumberDigits(s[..|s| - 1]);
      forall k | 0 <= k < |s| ensures IsHexDigit(s[k]) {
        if k < |s| - 1 {
          assert s[k] == s[..|s| - 1][k];
        }
      }
    }
  }

  /** A bare run of hex digits, with no sign, prefix or blanks, parses as
      its big-endian value. */
  lemma PlainHexParses(s: string)
    requires |s| > 0 && HexNumber(s).Some?
    ensures IntBase16(s) == Some(HexNumber(s).value)
  {
    HexNumberDigits(s);
    assert StripLeft(s) == s;
    assert StripRight(s) == s;
  }

  /** An empty field is not a number. */
  lemma EmptyIsNotHex()
    ensures IntBase16("") == None
  {
  }
}
