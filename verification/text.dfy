/**
 * The Python string built-ins the reminder relies on, restricted to ASCII:
 * `str.lower`, `str.strip`, `str.split` on one separator character,
 * `str.join`, the `in` substring test and `'{0}'.format` of an integer.
 */
module Text {

  // ---------------------------------------------------------------- lower()

  /** ASCII case folding of one character. */
  function LowerChar(c: char): char {
    if 'A' <= c <= 'Z' then (c as int + 32) as char else c
  }

  /** `s.lower()` for ASCII text. */
  function Lower(s: string): string {
    seq(|s|, i requires 0 <= i < |s| => LowerChar(s[i]))
  }

  /** No character of `s` is changed by case folding. */
  ghost predicate IsLowered(s: string) {
    forall c :: c in s ==> LowerChar(c) == c
  }

  lemma LowerIsLowered(s: string)
    ensures IsLowered(Lower(s))
  {
    forall c | c in Lower(s) ensures LowerChar(c) == c {
      var i :| 0 <= i < |Lower(s)| && Lower(s)[i] == c;
    }
  }

  lemma LoweredIsFixed(s: string)
    requires IsLowered(s)
    ensures Lower(s) == s
  {
    assert forall i :: 0 <= i < |s| ==> s[i] in s;
  }

  /** Case folding never produces a character it does not start from, unless that is a letter. */
  lemma LowerKeepsOtherChars(s: string, c: char)
    requires !('a' <= c <= 'z') && c !in s
    ensures c !in Lower(s)
  {
    forall i | 0 <= i < |s| ensures Lower(s)[i] != c {
      assert s[i] in s;
    }
  }

  // ------------------------------------------------------------ `x in y`

  /** `p` is a prefix of `s`. */
  predicate IsPrefix(p: string, s: string) {
    |p| <= |s| && s[..|p|] == p
  }

  /** `needle` starts at position `i` of `hay`. */
  ghost predicate OccursAt(needle: string, hay: string, i: int) {
    0 <= i <= |hay| - |needle| && hay[i..i + |needle|] == needle
  }

  /** Python's `needle in hay` on strings: a substring search (the empty string occurs everywhere). */
  function Occurs(needle: string, hay: string): bool
    decreases |hay|
  {
    IsPrefix(needle, hay) || (hay != [] && Occurs(needle, hay[1..]))
  }

  /** The search finds `needle` exactly when it starts at some position of `hay`. */
  lemma {:induction false} OccursIff(needle: string, hay: string)
    ensures Occurs(needle, hay) <==> exists i :: OccursAt(needle, hay, i)
    decreases |hay|
  {
    if IsPrefix(needle, hay) {
      assert OccursAt(needle, hay, 0);
    } else if hay != [] {
      OccursIff(needle, hay[1..]);
      if Occurs(needle, hay[1..]) {
        var i :| OccursAt(needle, hay[1..], i);
        assert hay[1..][i..i + |needle|] == hay[i + 1..i + 1 + |needle|];
        assert OccursAt(needle, hay, i + 1);
      }
      if exists i :: OccursAt(needle, hay, i) {
        var i :| OccursAt(needle, hay, i);
        if i != 0 {
          assert hay[1..][i - 1..i - 1 + |needle|] == hay[i..i + |needle|];
          assert OccursAt(needle, hay[1..], i - 1);
        }
      }
    }
  }

  // ---------------------------------------------------------------- strip()

  /** The ASCII characters `str.strip()` removes (str.isspace() is true of them). */
  predicate IsSpace(c: char) {
    var n := c as int;
    n == 32 || 9 <= n <= 13 || 28 <= n <= 31
  }

  function TrimStart(s: string): (r: string)
    ensures |r| <= |s| && r == s[|s| - |r|..]
    ensures r == [] || !IsSpace(r[0])
    ensures forall k :: 0 <= k < |s| - |r| ==> IsSpace(s[k])
    decreases |s|
  {
    if s != [] && IsSpace(s[0]) then TrimStart(s[1..]) else s
  }

  function TrimEnd(s: string): (r: string)
    ensures |r| <= |s| && r == s[..|r|]
    ensures r == [] || !IsSpace(r[|r| - 1])
    ensures forall k :: |r| <= k < |s| ==> IsSpace(s[k])
    decreases |s|
  {
    if s != [] && IsSpace(s[|s| - 1]) then TrimEnd(s[..|s| - 1]) else s
  }

  /** `s.strip()`: the longest slice of `s` with no whitespace at either end. */
  function Strip(s: string): string {
    TrimEnd(TrimStart(s))
  }

  /** Every character of `Strip(s)` comes from `s`. */
  lemma StripIsSlice(s: string)
    ensures exists i, j :: 0 <= i <= j <= |s| && Strip(s) == s[i..j]
  {
    var t := TrimStart(s);
    var r := TrimEnd(t);
    var i := |s| - |t|;
    var j := i + |r|;
    assert r == s[i..j] by {
      assert t == s[i..];
      assert r == t[..|r|];
    }
    assert 0 <= i <= j <= |s| && Strip(s) == s[i..j];
  }

  lemma StripKeepsChars(s: string, c: char)
    requires c in Strip(s)
    ensures c in s
  {
    StripIsSlice(s);
    var i, j :| 0 <= i <= j <= |s| && Strip(s) == s[i..j];
    var k :| 0 <= k < |Strip(s)| && Strip(s)[k] == c;
    assert s[i + k] == c;
  }

  /** Stripping twice is stripping once. */
  lemma StripIdempotent(s: string)
    ensures Strip(Strip(s)) == Strip(s)
  {
    var t := TrimStart(s);
    var r := TrimEnd(t);
    assert r == [] || r[0] == t[0];
    assert TrimStart(r) == r;
  }

  // ------------------------------------------------------ split() / join()

  /** Number of occurrences of `c` in `s`. */
  function Count(c: char, s: string): nat {
    if s == [] then 0 else (if s[0] == c then 1 else 0) + Count(c, s[1..])
  }

  /** `s.split(sep)` for a one-character separator: the pieces between separators, one more than the separators. */
  function Split(s: string, sep: char): (r: seq<string>)
    ensures |r| == Count(sep, s) + 1
    ensures forall i :: 0 <= i < |r| ==> sep !in r[i]
    decreases |s|
  {
    if s == [] then [""]
    else
      var rest := Split(s[1..], sep);
      if s[0] == sep then [""] + rest else [[s[0]] + rest[0]] + rest[1..]
  }

  /** `sep.join(parts)`. */
  function Join(sep: string, parts: seq<string>): string
    decreases |parts|
  {
    if parts == [] then ""
    else if |parts| == 1 then parts[0]
    else parts[0] + sep + Join(sep, parts[1..])
  }

  /** Joining the pieces of a split with the separator gives back the original text. */
  lemma {:induction false} JoinSplit(s: string, sep: char)
    ensures Join([sep], Split(s, sep)) == s
    decreases |s|
  {
    if s != [] {
      var rest := Split(s[1..], sep);
      JoinSplit(s[1..], sep);
      assert s == [s[0]] + s[1..];
      if s[0] == sep {
        assert Split(s, sep) == [""] + rest;
        assert ([""] + rest)[1..] == rest;
        assert Join([sep], [""] + rest) == "" + [sep] + Join([sep], rest);
      } else {
        var parts := [[s[0]] + rest[0]] + rest[1..];
        assert Split(s, sep) == parts;
        if |rest| == 1 {
          assert Join([sep], rest) == rest[0];
          assert Join([sep], parts) == [s[0]] + rest[0];
        } else {
          assert parts[1..] == rest[1..];
          assert Join([sep], rest) == rest[0] + [sep] + Join([sep], rest[1..]);
          assert Join([sep], parts) == ([s[0]] + rest[0]) + [sep] + Join([sep], rest[1..]);
        }
      }
    }
  }

  /** Splitting `p + t`, where `p` holds no separator, extends the first piece of `t` by `p`. */
  lemma {:induction false} SplitPrefix(p: string, t: string, sep: char)
    requires sep !in p
    ensures Split(p + t, sep) == [p + Split(t, sep)[0]] + Split(t, sep)[1..]
    decreases |p|
  {
    if p != [] {
      var r := Split(t, sep);
      var q := p + t;
      assert p[0] in p;
      assert forall c :: c in p[1..] ==> c in p;
      SplitPrefix(p[1..], t, sep);
      assert q[1..] == p[1..] + t;
      assert q != [] && q[0] == p[0] != sep;
      var rest := Split(q[1..], sep);
      assert Split(q, sep) == [[q[0]] + rest[0]] + rest[1..];
      assert rest[0] == p[1..] + r[0] && rest[1..] == r[1..];
      assert [p[0]] + (p[1..] + r[0]) == p + r[0];
    } else {
      var r := Split(t, sep);
      assert p + t == t;
      assert p + r[0] == r[0];
      assert r == [r[0]] + r[1..];
    }
  }

  /** Splitting the join of separator-free parts gives back the parts. */
  lemma {:induction false} SplitJoin(parts: seq<string>, sep: char)
    requires parts != []
    requires forall i :: 0 <= i < |parts| ==> sep !in parts[i]
    ensures Split(Join([sep], parts), sep) == parts
    decreases |parts|
  {
    if |parts| == 1 {
      SplitPrefix(parts[0], "", sep);
      assert parts[0] + "" == parts[0];
      assert Split("", sep) == [""];
      assert parts == [parts[0] + ""];
    } else {
      var rest := Join([sep], parts[1..]);
      SplitJoin(parts[1..], sep);
      assert Join([sep], parts) == parts[0] + ([sep] + rest);
      SplitPrefix(parts[0], [sep] + rest, sep);
      assert ([sep] + rest)[1..] == rest;
      assert Split([sep] + rest, sep) == [""] + parts[1..];
      assert parts[0] + "" == parts[0];
      assert parts == [parts[0]] + parts[1..];
    }
  }

  /** A character found in neither the separator nor any part is not in the join. */
  lemma {:induction false} JoinAvoids(sep: string, parts: seq<string>, c: char)
    requires c !in sep
    requires forall i :: 0 <= i < |parts| ==> c !in parts[i]
    ensures c !in Join(sep, parts)
    decreases |parts|
  {
    if |parts| > 1 {
      JoinAvoids(sep, parts[1..], c);
    }
  }

  /** The join of several parts starts with the first part. */
  lemma JoinStartsWithFirst(sep: string, parts: seq<string>)
    requires parts != []
    ensures IsPrefix(parts[0], Join(sep, parts))
  {
    if |parts| > 1 {
      assert Join(sep, parts)[..|parts[0]|] == parts[0];
    }
  }

  // ------------------------------------------------------------- numbers

  function DigitChar(d: nat): char
    requires d < 10
  {
    ('0' as int + d) as char
  }

  /** The number a string of decimal digits denotes, most significant digit first. */
  function DigitsValue(s: string): int
    decreases |s|
  {
    if s == [] then 0 else DigitsValue(s[..|s| - 1]) * 10 + (s[|s| - 1] as int - '0' as int)
  }

  /** Decimal rendering of a natural number, without leading zeros. */
  function NatToString(n: nat): string
    decreases n
  {
    if n < 10 then [DigitChar(n)] else NatToString(n / 10) + [DigitChar(n % 10)]
  }

  /** A rendering holds decimal digits only. */
  lemma {:induction false} NatToStringDigits(n: nat)
    ensures NatToString(n) != []
    ensures forall c :: c in NatToString(n) ==> '0' <= c <= '9'
    decreases n
  {
    if n >= 10 {
      NatToStringDigits(n / 10);
    }
  }

  /** A rendering denotes the number it renders, and a positive number has no leading zero. */
  lemma {:induction false} NatToStringValue(n: nat)
    ensures DigitsValue(NatToString(n)) == n
    ensures n > 0 ==> NatToString(n)[0] != '0'
    decreases n
  {
    if n >= 10 {
      NatToStringValue(n / 10);
      var s := NatToString(n);
      assert s[..|s| - 1] == NatToString(n / 10);
      assert s[0] == NatToString(n / 10)[0];
    } else {
      assert NatToString(n)[..0] == [];
    }
  }

  /** `'{0}'.format(i)` for an integer. */
  function IntToString(i: int): string {
    if i < 0 then "-" + NatToString(-i) else NatToString(i)
  }

  /**
   * A rendered integer is its magnitude's digits, behind a minus sign exactly when it is
   * negative.
   */
  lemma IntToStringValue(i: int)
    ensures IntToString(i) != [] && (IntToString(i)[0] == '-' <==> i < 0)
    ensures i >= 0 ==> DigitsValue(IntToString(i)) == i
                       && forall c :: c in IntToString(i) ==> '0' <= c <= '9'
    ensures i < 0 ==> DigitsValue(IntToString(i)[1..]) == -i
                      && forall c :: c in IntToString(i)[1..] ==> '0' <= c <= '9'
  {
    if i < 0 {
      NatToStringDigits(-i);
      NatToStringValue(-i);
      assert IntToString(i)[1..] == NatToString(-i);
    } else {
      NatToStringDigits(i);
      NatToStringValue(i);
      assert NatToString(i)[0] in NatToString(i);
    }
  }
}
