/**
 * The output file name (main.go:170-185). When an index string is given it
 * is parsed with `strconv.Atoi`; the file name is split on '/', its last
 * element on '.', and the name is rebuilt as
 * `<dir>/<stem>_<index as %04d>.<ext>`, where `<stem>` is the text before
 * the first '.' and `<ext>` the text between the first and the second '.'.
 *
 * Go strings are byte strings; '/', '.', '-', '+' and the digits are ASCII,
 * which never occurs inside a multi-byte UTF-8 sequence, so characters
 * stand in for bytes here.
 */
module Filename {

  // ----- strings.Split and strings.Join on a one-character separator ------

  /** `strings.Join(parts, string(sep))`. */
  function Join(parts: seq<string>, sep: char): string
  {
    if parts == [] then []
    else if |parts| == 1 then parts[0]
    else parts[0] + [sep] + Join(parts[1..], sep)
  }

  /**
   * `strings.Split(s, string(sep))`: the pieces between separators, at least
   * one, more than one exactly when there is a separator, none holding one.
   */
  function Split(s: string, sep: char): (parts: seq<string>)
    ensures |parts| >= 1
    ensures |parts| == 1 <==> sep !in s
    ensures forall i :: 0 <= i < |parts| ==> sep !in parts[i]
  {
    if s == [] then [[]]
    else
      var rest := Split(s[1..], sep);
      if s[0] == sep then [[]] + rest
      else [[s[0]] + rest[0]] + rest[1..]
  }

  /** Joining the pieces of a split with the separator gives the string back. */
  lemma {:induction false} JoinSplit(s: string, sep: char)
    ensures Join(Split(s, sep), sep) == s
  {
    if s != [] {
      var rest := Split(s[1..], sep);
      var parts := Split(s, sep);
      JoinSplit(s[1..], sep);
      assert s == [s[0]] + s[1..];
      if s[0] == sep {
        assert parts[1..] == rest;
      } else if |rest| > 1 {
        assert parts[1..] == rest[1..];
        assert Join(rest, sep) == rest[0] + [sep] + Join(rest[1..], sep);
      }
    }
  }

  /** Joining all but the last piece, then the separator and the last piece, is joining all of them. */
  lemma {:induction false} JoinLast(parts: seq<string>, sep: char)
    requires |parts| >= 2
    ensures Join(parts, sep) == Join(parts[..|parts| - 1], sep) + [sep] + parts[|parts| - 1]
  {
    var init := parts[..|parts| - 1];
    if |parts| == 2 {
      assert parts[1..] == [parts[1]];
      assert init == [parts[0]];
    } else {
      JoinLast(parts[1..], sep);
      assert parts[1..][..|parts| - 2] == init[1..];
      assert Join(init, sep) == init[0] + [sep] + Join(init[1..], sep);
    }
  }

  // ----- reference definitions ---------------------------------------------

  /** The text before the first `c` (all of `s` when there is none). */
  function Before(s: string, c: char): (r: string)
    ensures c !in r
    ensures c !in s ==> r == s
  {
    if s == [] || s[0] == c then []
    else [s[0]] + Before(s[1..], c)
  }

  /** The text after the first `c`. */
  function After(s: string, c: char): (r: string)
    requires c in s
    ensures |r| < |s|
  {
    if s[0] == c then s[1..] else After(s[1..], c)
  }

  /** `s` is the text before its first `c`, that `c`, and the text after it. */
  lemma {:induction false} AroundFirst(s: string, c: char)
    requires c in s
    ensures s == Before(s, c) + [c] + After(s, c)
  {
    assert s == [s[0]] + s[1..];
    if s[0] != c {
      AroundFirst(s[1..], c);
    }
  }

  /** The text after the last '/'. */
  function BaseName(s: string): (r: string)
    ensures '/' !in r
    decreases |s|
  {
    if '/' in s then BaseName(After(s, '/')) else s
  }

  /** The first piece of a split is the text before the first separator, and the other pieces split what follows it. */
  lemma {:induction false} SplitFirst(s: string, c: char)
    ensures Split(s, c)[0] == Before(s, c)
    ensures c in s ==> Split(s, c)[1..] == Split(After(s, c), c)
  {
    if s != [] && s[0] != c {
      var t := s[1..];
      SplitFirst(t, c);
      assert s == [s[0]] + t;
      if c in s {
        assert c in t;
        assert |Before(s, c)| == 1 + |Before(t, c)|;
        assert After(s, c) == After(t, c);
      }
    }
  }

  /** The last piece of a path is its base name. */
  lemma {:induction false} SplitPath(s: string)
    ensures File(s) == BaseName(s)
    decreases |s|
  {
    SplitFirst(s, '/');
    if '/' in s {
      var a := After(s, '/');
      SplitPath(a);
      var paths := Split(s, '/');
      assert paths[|paths| - 1] == paths[1..][|paths| - 2];
    }
  }

  // ----- %04d and strconv.Atoi ---------------------------------------------

  const MinInt64: int := -0x8000_0000_0000_0000
  const MaxInt64: int := 0x7fff_ffff_ffff_ffff

  predicate IsDigit(ch: char) {
    '0' <= ch <= '9'
  }

  predicate AllDigits(s: string) {
    forall i :: 0 <= i < |s| ==> IsDigit(s[i])
  }

  function DigitChar(d: nat): (ch: char)
    requires d < 10
    ensures IsDigit(ch)
  {
    (48 + d) as char
  }

  function DigitValue(ch: char): (d: nat)
    requires IsDigit(ch)
    ensures d < 10
  {
    (ch as int - 48) as nat
  }

  /** The decimal digits of `n`, most significant first, without leading zeros. */
  function Decimal(n: nat): (s: string)
    ensures |s| >= 1 && AllDigits(s)
  {
    if n < 10 then [DigitChar(n)] else Decimal(n / 10) + [DigitChar(n % 10)]
  }

  /** Left-pads with '0' up to `width` characters. */
  function ZeroPad(s: string, width: nat): (r: string)
    ensures |r| == if |s| >= width then |s| else width
    ensures AllDigits(s) ==> AllDigits(r)
    decreases width - |s|
  {
    if |s| >= width then s else ZeroPad(['0'] + s, width)
  }

  /**
   * `fmt.Sprintf("%04d", i)`: at least four characters; for a negative `i`
   * the width counts the '-' and the zeros go after it.
   */
  function FormatIndex(i: int): (s: string)
  {
    if i < 0 then "-" + ZeroPad(Decimal(-i), 3) else ZeroPad(Decimal(i), 4)
  }

  /** The number a string of digits spells, leading zeros included. */
  function Value(s: string): nat
    requires AllDigits(s)
  {
    if s == [] then 0 else Value(s[..|s| - 1]) * 10 + DigitValue(s[|s| - 1])
  }

  /**
   * `strconv.Atoi` for a 64-bit `int`: an optional sign and at least one
   * decimal digit, nothing else, and a value that fits; `None` is the error.
   */
  function Atoi(s: string): (r: Option<int>)
    ensures r.Some? ==> MinInt64 <= r.value <= MaxInt64
  {
    if s == [] then None
    else
      var digits := if s[0] == '+' || s[0] == '-' then s[1..] else s;
      if digits == [] || !AllDigits(digits) then None
      else
        var magnitude: int := Value(digits);
        var v := if s[0] == '-' then -magnitude else magnitude;
        if v < MinInt64 || v > MaxInt64 then None else Some(v)
  }

  datatype Option<T> = None | Some(value: T)

  lemma {:induction false} ValueDecimal(n: nat)
    ensures Value(Decimal(n)) == n
  {
    if n >= 10 {
      ValueDecimal(n / 10);
      var s := Decimal(n);
      assert s[..|s| - 1] == Decimal(n / 10);
    }
  }

  lemma {:induction false} ValueLeadingZero(s: string)
    requires AllDigits(s)
    ensures Value(['0'] + s) == Value(s)
  {
    if s != [] {
      var t := ['0'] + s;
      assert t[..|t| - 1] == ['0'] + s[..|s| - 1];
      ValueLeadingZero(s[..|s| - 1]);
    }
  }

  lemma {:induction false} ValueZeroPad(s: string, width: nat)
    requires AllDigits(s)
    ensures Value(ZeroPad(s, width)) == Value(s)
    decreases width - |s|
  {
    if |s| < width {
      ValueZeroPad(['0'] + s, width);
      ValueLeadingZero(s);
    }
  }

  /** `Atoi` reads back the index that `%04d` wrote, for every 64-bit index. */
  lemma AtoiFormatIndex(i: int)
    requires MinInt64 <= i <= MaxInt64
    ensures Atoi(FormatIndex(i)) == Some(i)
  {
    var n: nat := if i < 0 then -i else i;
    var d := ZeroPad(Decimal(n), if i < 0 then 3 else 4);
    assert Value(d) == n by {
      ValueZeroPad(Decimal(n), if i < 0 then 3 else 4);
      ValueDecimal(n);
    }
    AtoiDigits(d, i < 0);
  }

  /** `Atoi` of a run of digits, with or without a leading '-'. */
  lemma AtoiDigits(d: string, negative: bool)
    requires |d| >= 1 && AllDigits(d)
    requires (if negative then -(Value(d) as int) else Value(d)) >= MinInt64
    requires (if negative then -(Value(d) as int) else Value(d)) <= MaxInt64
    ensures negative ==> Atoi("-" + d) == Some(-(Value(d) as int))
    ensures !negative ==> Atoi(d) == Some(Value(d))
  {
    if negative {
      var s := "-" + d;
      assert s[0] == '-' && s[1..] == d;
    } else {
      assert IsDigit(d[0]);
    }
  }

  function Pow10(k: nat): (p: nat)
    ensures p >= 1
  {
    if k == 0 then 1 else 10 * Pow10(k - 1)
  }

  /** `Decimal(n)` has at most `k` digits exactly when `n < 10^k`. */
  lemma {:induction false} DecimalLength(n: nat, k: nat)
    requires k >= 1
    ensures |Decimal(n)| <= k <==> n < Pow10(k)
  {
    if n >= 10 {
      if k == 1 {
        assert Pow10(1) == 10;
      } else {
        DecimalLength(n / 10, k - 1);
      }
    } else {
      PowAtLeastTen(k);
    }
  }

  lemma {:induction false} PowAtLeastTen(k: nat)
    requires k >= 1
    ensures Pow10(k) >= 10
  {
    if k > 1 {
      PowAtLeastTen(k - 1);
    }
  }

  /** `%04d` pads to exactly four characters exactly the indexes -999 .. 9999. */
  lemma FormatIndexWidth(i: int)
    ensures |FormatIndex(i)| >= 4
    ensures |FormatIndex(i)| == 4 <==> -999 <= i <= 9999
  {
    if i < 0 {
      DecimalLength(-i, 3);
      assert Pow10(3) == 1000;
    } else {
      DecimalLength(i, 4);
      assert Pow10(4) == 10000;
    }
  }

  // ----- the file name -----------------------------------------------------

  /** main.go:175-176: the last '/'-separated piece of the name. */
  function File(filename: string): string
  {
    var paths := Split(filename, '/');
    paths[|paths| - 1]
  }

  /** main.go:177: the text before the first '.' of the base name. */
  function Stem(file: string): string
  {
    Split(file, '.')[0]
  }

  /** main.go:178: the second piece of the base name split on '.'. */
  function Extension(file: string): string
    requires '.' in file
  {
    Split(file, '.')[1]
  }

  /** The `%s_%04d.%s` part of the name (main.go:180, 182). */
  function IndexedBase(file: string, index: int): string
    requires '.' in file
  {
    Stem(file) + "_" + FormatIndex(index) + "." + Extension(file)
  }

  /** main.go:179-183: `base` in place of the last piece, after the other pieces joined with '/'. */
  function Rebase(filename: string, base: string): string
  {
    var paths := Split(filename, '/');
    if |paths| == 1 then base else Join(paths[..|paths| - 1], '/') + "/" + base
  }

  /** main.go:175-183: the name with the index put between the stem and the extension. */
  function IndexedFilename(filename: string, index: int): string
    requires '.' in File(filename)
  {
    Rebase(filename, IndexedBase(File(filename), index))
  }

  /**
   * The stem is the text before the first '.', and the extension only the
   * text between the first and the second '.': whatever follows a second '.'
   * is dropped. The stem, the first '.' and what follows make up the name.
   */
  lemma StemAndExtension(file: string)
    requires '.' in file
    ensures Stem(file) == Before(file, '.')
    ensures file == Stem(file) + "." + After(file, '.')
    ensures Extension(file) == Before(After(file, '.'), '.')
  {
    SplitFirst(file, '.');
    AroundFirst(file, '.');
    SplitFirst(After(file, '.'), '.');
    var parts := Split(file, '.');
    assert parts[1] == parts[1..][0];
  }

  /**
   * Rebasing keeps the name up to and including its last '/' and puts
   * `base` in place of the text after it, which holds no '/'.
   */
  lemma RebaseShape(filename: string, base: string)
    ensures var keep := |filename| - |File(filename)|;
            && 0 <= keep <= |filename|
            && filename[keep..] == File(filename) && '/' !in File(filename)
            && ('/' in filename <==> keep > 0)
            && ('/' in filename ==> filename[keep - 1] == '/')
            && Rebase(filename, base) == filename[..keep] + base
  {
    var paths := Split(filename, '/');
    var last := paths[|paths| - 1];
    if |paths| == 1 {
      assert filename == last by {
        JoinSplit(filename, '/');
      }
    } else {
      var j := Join(paths[..|paths| - 1], '/');
      assert filename == j + "/" + last by {
        JoinSplit(filename, '/');
        JoinLast(paths, '/');
      }
      SliceAround(filename, j, last);
    }
  }

  lemma SliceAround(s: string, front: string, back: string)
    requires s == front + "/" + back
    ensures s[..|s| - |back|] == front + "/"
    ensures s[|s| - |back|..] == back
    ensures s[|s| - |back| - 1] == '/'
  {
  }

  /**
   * The indexed name keeps the original up to and including its last '/'
   * and replaces the base name after it by the indexed base name.
   */
  lemma IndexedFilenameShape(filename: string, index: int)
    requires '.' in BaseName(filename)
    ensures File(filename) == BaseName(filename)
    ensures var keep := |filename| - |BaseName(filename)|;
            && 0 <= keep <= |filename|
            && IndexedFilename(filename, index) == filename[..keep] + IndexedBase(BaseName(filename), index)
  {
    SplitPath(filename);
    RebaseShape(filename, IndexedBase(BaseName(filename), index));
  }

  datatype NameError = BadIndex | NoExtension

  datatype Name = Named(name: string) | Failed(err: NameError)

  /**
   * main.go:170-185: the file name `writeToFile` is given. An index that
   * `Atoi` rejects ends the program (`log.Fatalln`); a base name without a
   * '.' makes `strings.Split(file, ".")[1]` panic.
   */
  function OutputName(filename: string, filenameIndex: string): Name
  {
    if filenameIndex == [] then Named(filename)
    else
      match Atoi(filenameIndex)
      case None => Failed(BadIndex)
      case Some(index) =>
        if '.' !in File(filename) then Failed(NoExtension)
        else Named(IndexedFilename(filename, index))
  }

  /**
   * The three outcomes: no index leaves the name alone, an unparsable index
   * and a base name without '.' are the two failures, and otherwise the
   * name is the indexed one, whose index `Atoi` reads back.
   */
  lemma OutputNameCases(filename: string, filenameIndex: string)
    ensures filenameIndex == [] ==> OutputName(filename, filenameIndex) == Named(filename)
    ensures OutputName(filename, filenameIndex) == Failed(BadIndex)
            <==> filenameIndex != [] && Atoi(filenameIndex).None?
    ensures OutputName(filename, filenameIndex) == Failed(NoExtension)
            <==> filenameIndex != [] && Atoi(filenameIndex).Some? && '.' !in BaseName(filename)
    ensures filenameIndex != [] && Atoi(filenameIndex).Some? && '.' in BaseName(filename) ==>
              var index := Atoi(filenameIndex).value;
              && Atoi(FormatIndex(index)) == Some(index)
              && File(filename) == BaseName(filename)
              && OutputName(filename, filenameIndex) == Named(IndexedFilename(filename, index))
  {
    var r := Atoi(filenameIndex);
    if filenameIndex != [] && r.Some? {
      AtoiFormatIndex(r.value);
      NamedByIndex(filename, filenameIndex, r.value);
    }
  }

  lemma NamedByIndex(filename: string, filenameIndex: string, index: int)
    requires filenameIndex != [] && Atoi(filenameIndex) == Some(index)
    ensures File(filename) == BaseName(filename)
    ensures '.' in BaseName(filename) ==> OutputName(filename, filenameIndex) == Named(IndexedFilename(filename, index))
    ensures '.' !in BaseName(filename) ==> OutputName(filename, filenameIndex) == Failed(NoExtension)
  {
    SplitPath(filename);
  }
}
