/** The string operations of the Go and TypeScript standard libraries that the core
    calls (strings.ToLower, strings.TrimSpace, strings.Split, strings.Join,
    strconv.Itoa and strconv.Atoi, String.prototype.trim, startsWith, includes),
    written out on `seq<char>`. */
module Text {
  import opened Wrappers

  // ---------------------------------------------------------------- case

  predicate IsAsciiUpper(c: char) { 'A' <= c <= 'Z' }

  predicate IsAsciiLower(c: char) { 'a' <= c <= 'z' }

  predicate IsDigit(c: char) { '0' <= c <= '9' }

  predicate IsAsciiAlnum(c: char) { IsAsciiUpper(c) || IsAsciiLower(c) || IsDigit(c) }

  function LowerChar(c: char): char
  {
    if IsAsciiUpper(c) then (c as int + 32) as char else c
  }

  /** strings.ToLower and SQL lower(), on the ASCII letters. */
  function Lower(s: string): (r: string)
    ensures |r| == |s|
    ensures forall i :: 0 <= i < |s| ==> r[i] == LowerChar(s[i])
  {
    seq(|s|, i requires 0 <= i < |s| => LowerChar(s[i]))
  }

  lemma LowerIdempotent(s: string)
    ensures Lower(Lower(s)) == Lower(s)
  {
    assert forall i :: 0 <= i < |s| ==> LowerChar(LowerChar(s[i])) == LowerChar(s[i]);
  }

  lemma LowerConcat(a: string, b: string)
    ensures Lower(a + b) == Lower(a) + Lower(b)
  {
    assert Lower(a + b) == Lower(a) + Lower(b);
  }

  // ---------------------------------------------------------------- whitespace

  /** unicode.IsSpace: the characters strings.TrimSpace removes. */
  predicate IsGoSpace(c: char)
  {
    var k := c as int;
    k == 0x09 || k == 0x0A || k == 0x0B || k == 0x0C || k == 0x0D || k == 0x20
    || k == 0x85 || k == 0xA0 || k == 0x1680 || (0x2000 <= k <= 0x200A)
    || k == 0x2028 || k == 0x2029 || k == 0x202F || k == 0x205F || k == 0x3000
  }

  /** The white space and line terminators String.prototype.trim removes: the
      set of unicode.IsSpace without U+0085 and with U+FEFF. */
  predicate IsJsSpace(c: char)
  {
    var k := c as int;
    k == 0x09 || k == 0x0A || k == 0x0B || k == 0x0C || k == 0x0D || k == 0x20
    || k == 0xA0 || k == 0x1680 || (0x2000 <= k <= 0x200A)
    || k == 0x2028 || k == 0x2029 || k == 0x202F || k == 0x205F || k == 0x3000
    || k == 0xFEFF
  }

  /** Every character of `t` is one `isSpace` accepts. */
  predicate AllSpace(t: string, isSpace: char -> bool)
  {
    forall i :: 0 <= i < |t| ==> isSpace(t[i])
  }

  /** `t` is `s` with only characters `isSpace` accepts removed at either end. */
  predicate TrimmedTo(s: string, t: string, isSpace: char -> bool)
  {
    exists k :: 0 <= k <= |s| - |t| && t == s[k..k + |t|]
      && AllSpace(s[..k], isSpace) && AllSpace(s[k + |t|..], isSpace)
  }

  /** Drops the leading characters `isSpace` accepts. */
  function TrimLeft(s: string, isSpace: char -> bool): (r: string)
    ensures |r| <= |s| && r == s[|s| - |r|..]
    ensures AllSpace(s[..|s| - |r|], isSpace)
  {
    if |s| > 0 && isSpace(s[0]) then TrimLeft(s[1..], isSpace) else s
  }

  /** Drops the trailing characters `isSpace` accepts. */
  function TrimRight(s: string, isSpace: char -> bool): (r: string)
    ensures |r| <= |s| && r == s[..|r|]
    ensures AllSpace(s[|r|..], isSpace)
  {
    if |s| > 0 && isSpace(s[|s| - 1]) then TrimRight(s[..|s| - 1], isSpace) else s
  }

  lemma {:induction false} TrimLeftEnd(s: string, isSpace: char -> bool)
    ensures TrimLeft(s, isSpace) == [] || !isSpace(TrimLeft(s, isSpace)[0])
  {
    if |s| > 0 && isSpace(s[0]) {
      TrimLeftEnd(s[1..], isSpace);
    }
  }

  lemma {:induction false} TrimRightEnds(s: string, isSpace: char -> bool)
    ensures var r := TrimRight(s, isSpace);
      && (r == [] || !isSpace(r[|r| - 1]))
      && (s != [] && !isSpace(s[0]) ==> r == [] || !isSpace(r[0]))
  {
    if |s| > 0 && isSpace(s[|s| - 1]) {
      TrimRightEnds(s[..|s| - 1], isSpace);
    }
  }

  /** Removes the leading and trailing characters `isSpace` accepts. */
  function Trim(s: string, isSpace: char -> bool): (r: string)
    ensures |r| <= |s|
  {
    TrimRight(TrimLeft(s, isSpace), isSpace)
  }

  /** Only characters `isSpace` accepts are removed, at either end: what is
      left is a slice of `s` and everything outside it is space. */
  lemma TrimDropsOnlySpace(s: string, isSpace: char -> bool)
    ensures TrimmedTo(s, Trim(s, isSpace), isSpace)
  {
    var t := TrimLeft(s, isSpace);
    var r := TrimRight(t, isSpace);
    var k := |s| - |t|;
    assert r == s[k..k + |r|] by {
      assert t == s[k..] && r == t[..|r|];
    }
    assert s[k + |r|..] == t[|r|..];
    TrimmedAt(s, r, isSpace, k);
  }

  lemma TrimmedAt(s: string, t: string, isSpace: char -> bool, k: int)
    requires 0 <= k <= |s| - |t| && t == s[k..k + |t|]
    requires AllSpace(s[..k], isSpace) && AllSpace(s[k + |t|..], isSpace)
    ensures TrimmedTo(s, t, isSpace)
  {
  }

  /** The end characters of what is left are not spaces. */
  lemma TrimEnds(s: string, isSpace: char -> bool)
    ensures var r := Trim(s, isSpace);
      r == [] || (!isSpace(r[0]) && !isSpace(r[|r| - 1]))
  {
    TrimLeftEnd(s, isSpace);
    TrimRightEnds(TrimLeft(s, isSpace), isSpace);
  }

  /** strings.TrimSpace */
  function TrimSpace(s: string): string { Trim(s, IsGoSpace) }

  /** String.prototype.trim */
  function JsTrim(s: string): string { Trim(s, IsJsSpace) }

  /** A string whose end characters are not spaces is left as it is; in
      particular trimming is idempotent. */
  lemma TrimKeepsTrimmed(s: string, isSpace: char -> bool)
    requires s == [] || (!isSpace(s[0]) && !isSpace(s[|s| - 1]))
    ensures Trim(s, isSpace) == s
  {
  }

  // ---------------------------------------------------------------- prefixes, substrings

  /** strings.HasPrefix and String.prototype.startsWith */
  predicate HasPrefix(s: string, prefix: string)
  {
    |prefix| <= |s| && s[..|prefix|] == prefix
  }

  /** String.prototype.includes */
  predicate Contains(s: string, sub: string)
    decreases |s|
  {
    HasPrefix(s, sub) || (|s| > 0 && Contains(s[1..], sub))
  }

  /** `s` starts with `prefix` exactly when `s` is `prefix` followed by something. */
  lemma HasPrefixIsConcat(s: string, prefix: string)
    ensures HasPrefix(s, prefix) <==> exists t :: s == prefix + t
  {
    if HasPrefix(s, prefix) {
      assert s == prefix + s[|prefix|..];
    }
  }

  /** `sub` occurs in `s` starting at position `i`. */
  predicate OccursAt(s: string, sub: string, i: int)
  {
    0 <= i <= |s| - |sub| && s[i..i + |sub|] == sub
  }

  /** `s` contains `sub` exactly when `sub` occurs in `s` at some position. */
  lemma {:induction false} ContainsOccurs(s: string, sub: string)
    ensures Contains(s, sub) <==> exists i :: OccursAt(s, sub, i)
    decreases |s|
  {
    if HasPrefix(s, sub) {
      assert OccursAt(s, sub, 0);
    } else if |s| > 0 {
      ContainsOccurs(s[1..], sub);
      if exists i :: OccursAt(s, sub, i) {
        var i :| OccursAt(s, sub, i);
        assert i > 0;
        assert OccursAt(s[1..], sub, i - 1) by {
          assert s[1..][i - 1..i - 1 + |sub|] == s[i..i + |sub|];
        }
      }
      if Contains(s[1..], sub) {
        var i :| OccursAt(s[1..], sub, i);
        assert OccursAt(s, sub, i + 1) by {
          assert s[1..][i..i + |sub|] == s[i + 1..i + 1 + |sub|];
        }
      }
    }
  }

  // ---------------------------------------------------------------- split and join

  /** The number of occurrences of `c` in `s`. */
  function Count(s: string, c: char): nat
  {
    if s == [] then 0 else (if s[0] == c then 1 else 0) + Count(s[1..], c)
  }

  lemma {:induction false} CountConcat(a: string, b: string, c: char)
    ensures Count(a + b, c) == Count(a, c) + Count(b, c)
  {
    if a == [] {
      assert a + b == b;
    } else {
      assert (a + b)[1..] == a[1..] + b;
      CountConcat(a[1..], b, c);
    }
  }

  lemma {:induction false} CountZero(s: string, c: char)
    ensures Count(s, c) == 0 <==> c !in s
  {
    if s != [] {
      CountZero(s[1..], c);
      assert s == [s[0]] + s[1..];
    }
  }

  /** strings.Split (and String.prototype.split) with a one-character separator:
      the pieces between consecutive separators, always at least one. */
  function Split(s: string, sep: char): (parts: seq<string>)
    ensures |parts| >= 1
  {
    if s == [] then [""]
    else
      var tail := Split(s[1..], sep);
      if s[0] == sep then [""] + tail else [[s[0]] + tail[0]] + tail[1..]
  }

  /** strings.Join with a one-character separator. */
  function Join(parts: seq<string>, sep: char): string
  {
    if |parts| == 0 then ""
    else if |parts| == 1 then parts[0]
    else parts[0] + [sep] + Join(parts[1..], sep)
  }

  /** Splitting loses nothing: joining the pieces again gives back `s`. */
  lemma {:induction false} JoinOfSplit(s: string, sep: char)
    ensures Join(Split(s, sep), sep) == s
  {
    if s != [] {
      var tail := Split(s[1..], sep);
      JoinOfSplit(s[1..], sep);
      if s[0] == sep {
        assert Split(s, sep) == [""] + tail;
        assert ([""] + tail)[1..] == tail;
      } else {
        var parts := [[s[0]] + tail[0]] + tail[1..];
        if |tail| == 1 {
          assert Join(parts, sep) == [s[0]] + tail[0];
        } else {
          assert parts[1..] == tail[1..];
          assert Join(parts, sep) == [s[0]] + (tail[0] + [sep] + Join(tail[1..], sep));
        }
        assert s == [s[0]] + s[1..];
      }
    }
  }

  /** No piece contains the separator. */
  lemma {:induction false} SplitPiecesFree(s: string, sep: char)
    ensures forall p :: p in Split(s, sep) ==> sep !in p
  {
    if s != [] {
      SplitPiecesFree(s[1..], sep);
      var tail := Split(s[1..], sep);
      if s[0] != sep {
        assert sep !in [s[0]] + tail[0];
        forall p | p in Split(s, sep) ensures sep !in p {
          if p != [s[0]] + tail[0] { assert p in tail[1..]; }
        }
      }
    }
  }

  /** There is one piece more than there are separators. */
  lemma {:induction false} SplitLength(s: string, sep: char)
    ensures |Split(s, sep)| == Count(s, sep) + 1
  {
    if s != [] {
      SplitLength(s[1..], sep);
    }
  }

  lemma {:induction false} SplitWithoutSep(a: string, sep: char)
    requires sep !in a
    ensures Split(a, sep) == [a]
  {
    if a != [] {
      SplitWithoutSep(a[1..], sep);
      assert [a[0]] + a[1..] == a;
    }
  }

  lemma {:induction false} SplitAtFirstSep(a: string, b: string, sep: char)
    requires sep !in a
    ensures Split(a + [sep] + b, sep) == [a] + Split(b, sep)
  {
    if a == [] {
      assert (a + [sep] + b)[1..] == b;
    } else {
      assert (a + [sep] + b)[1..] == a[1..] + [sep] + b;
      SplitAtFirstSep(a[1..], b, sep);
      assert [a[0]] + a[1..] == a;
    }
  }

  /** Three separator-free pieces joined by the separator split back into themselves. */
  lemma SplitThree(a: string, b: string, c: string, sep: char)
    requires sep !in a && sep !in b && sep !in c
    ensures Split(a + [sep] + b + [sep] + c, sep) == [a, b, c]
  {
    assert a + [sep] + b + [sep] + c == a + [sep] + (b + [sep] + c);
    SplitAtFirstSep(a, b + [sep] + c, sep);
    SplitAtFirstSep(b, c, sep);
    SplitWithoutSep(c, sep);
  }

  /** The last piece is the part of `s` after its final separator: a suffix
      free of the separator, preceded by one unless it is all of `s`. */
  lemma {:induction false} SplitLastPiece(s: string, sep: char)
    ensures var parts := Split(s, sep); var last := parts[|parts| - 1];
      && |last| <= |s| && s[|s| - |last|..] == last && sep !in last
      && (|last| < |s| ==> s[|s| - |last| - 1] == sep)
      && (|parts| > 1 ==> |last| < |s|)
  {
    if s != [] {
      SplitLastPiece(s[1..], sep);
      var tail := Split(s[1..], sep);
      var last := tail[|tail| - 1];
      if s[0] == sep {
        assert Split(s, sep)[|Split(s, sep)| - 1] == last;
        assert s[|s| - |last|..] == s[1..][|s[1..]| - |last|..];
      } else if |tail| == 1 {
        JoinOfSplit(s[1..], sep);
        assert [s[0]] + s[1..] == s;
        assert Split(s, sep) == [s];
      } else {
        assert Split(s, sep)[|Split(s, sep)| - 1] == last;
        assert s[|s| - |last|..] == s[1..][|s[1..]| - |last|..];
        assert s[|s| - |last| - 1] == s[1..][|s[1..]| - |last| - 1];
      }
    }
  }

  /** Pieces that do not contain the separator are recovered by splitting their join. */
  lemma {:induction false} SplitOfJoin(parts: seq<string>, sep: char)
    requires |parts| >= 1
    requires forall i :: 0 <= i < |parts| ==> sep !in parts[i]
    ensures Split(Join(parts, sep), sep) == parts
  {
    if |parts| == 1 {
      SplitWithoutSep(parts[0], sep);
    } else {
      SplitOfJoin(parts[1..], sep);
      SplitAtFirstSep(parts[0], Join(parts[1..], sep), sep);
      assert [parts[0]] + parts[1..] == parts;
    }
  }

  // ---------------------------------------------------------------- decimal numbers

  function DigitChar(d: nat): (c: char)
    requires d < 10
    ensures IsDigit(c)
  {
    ('0' as int + d) as char
  }

  predicate AllDigits(s: string) { forall i :: 0 <= i < |s| ==> IsDigit(s[i]) }

  /** strconv.Itoa and the `%d` verb on a natural number. */
  function NatToString(n: nat): (s: string)
    ensures |s| >= 1 && AllDigits(s)
  {
    if n < 10 then [DigitChar(n)] else NatToString(n / 10) + [DigitChar(n % 10)]
  }

  /** The value of a string of decimal digits. */
  function DigitsValue(s: string): nat
    requires AllDigits(s)
  {
    if s == [] then 0 else DigitsValue(s[..|s| - 1]) * 10 + (s[|s| - 1] as int - '0' as int)
  }

  lemma {:induction false} DigitsValueOfNatToString(n: nat)
    ensures DigitsValue(NatToString(n)) == n
  {
    if n >= 10 {
      DigitsValueOfNatToString(n / 10);
      var s := NatToString(n);
      assert s[..|s| - 1] == NatToString(n / 10);
    }
  }

  /** Different numbers print differently. */
  lemma NatToStringInjective(a: nat, b: nat)
    requires NatToString(a) == NatToString(b)
    ensures a == b
  {
    DigitsValueOfNatToString(a);
    DigitsValueOfNatToString(b);
  }

  const Int64Min: int := -0x8000_0000_0000_0000
  const Int64Max: int := 0x7FFF_FFFF_FFFF_FFFF

  /** strconv.Atoi on a 64-bit platform: an optional sign and at least one
      decimal digit, with a value in the int64 range; anything else is an error. */
  function Atoi(s: string): (r: Option<int>)
    ensures r.Some? ==> Int64Min <= r.value <= Int64Max
    ensures r.Some? ==> (
      && |s| > 0
      && var d := if s[0] == '+' || s[0] == '-' then s[1..] else s;
      d != [] && AllDigits(d))
  {
    var digits := if |s| > 0 && (s[0] == '+' || s[0] == '-') then s[1..] else s;
    if digits == [] || !AllDigits(digits) then None
    else
      var magnitude := DigitsValue(digits);
      var v: int := if s[0] == '-' then 0 - magnitude else magnitude;
      if Int64Min <= v <= Int64Max then Some(v) else None
  }

  /** Atoi reads back what Itoa prints. */
  lemma AtoiOfNatToString(n: nat)
    requires n <= Int64Max
    ensures Atoi(NatToString(n)) == Some(n)
  {
    DigitsValueOfNatToString(n);
  }
}
