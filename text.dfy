/**
 * The few Python string built-ins the application relies on, stated over
 * `string` (a sequence of characters): `str.split` and `str.replace` with a
 * one-character argument, and `int(s)` in base 10, which skips ASCII white
 * space around the number.
 */
module Text {
  import opened Wrappers

  /** Number of occurrences of `c` in `s`. */
  function CountChar(s: string, c: char): nat
  {
    if s == [] then 0 else (if s[0] == c then 1 else 0) + CountChar(s[1..], c)
  }

  lemma {:induction false} CountCharZero(s: string, c: char)
    ensures CountChar(s, c) == 0 <==> c !in s
  {
    if s != [] {
      CountCharZero(s[1..], c);
      assert s == [s[0]] + s[1..];
    }
  }

  lemma {:induction false} CountCharAppend(s: string, t: string, c: char)
    ensures CountChar(s + t, c) == CountChar(s, c) + CountChar(t, c)
  {
    if s != [] {
      assert (s + t)[1..] == s[1..] + t;
      CountCharAppend(s[1..], t, c);
    } else {
      assert s + t == t;
    }
  }

  /** Glues `parts` back together with `sep` between consecutive parts. */
  function Join(parts: seq<string>, sep: char): string
  {
    if |parts| == 0 then []
    else if |parts| == 1 then parts[0]
    else parts[0] + [sep] + Join(parts[1..], sep)
  }

  /**
   * Python's `s.split(sep)`: every occurrence of `sep` cuts, empty pieces are
   * kept, so there is one more piece than there are separators.
   */
  function Split(s: string, sep: char): (parts: seq<string>)
    ensures |parts| == CountChar(s, sep) + 1
    ensures forall p :: p in parts ==> sep !in p
    ensures Join(parts, sep) == s
  {
    if s == [] then [[]]
    else
      var rest := Split(s[1..], sep);
      if s[0] == sep then
        assert Join([[]] + rest, sep) == [sep] + Join(rest, sep) by {
          assert ([[]] + rest)[1..] == rest;
        }
        [[]] + rest
      else
        var parts := [[s[0]] + rest[0]] + rest[1..];
        assert Join(parts, sep) == [s[0]] + Join(rest, sep) by {
          assert parts[1..] == rest[1..];
        }
        assert s == [s[0]] + s[1..];
        parts
  }

  /** The two pieces around the one `sep` of a string that holds exactly one. */
  lemma SplitAtOnly(a: string, b: string, sep: char)
    requires sep !in a && sep !in b
    ensures Split(a + [sep] + b, sep) == [a, b]
  {
    var s := a + [sep] + b;
    assert CountChar(s, sep) == 1 by {
      CountCharAppend(a + [sep], b, sep);
      CountCharAppend(a, [sep], sep);
      CountCharZero(a, sep);
      CountCharZero(b, sep);
    }
    var parts := Split(s, sep);
    assert parts[0] in parts && parts[1] in parts;
    JoinTwo(parts, sep);
    SameCut(a, b, parts[0], parts[1], sep);
    assert parts == [parts[0], parts[1]];
  }

  lemma JoinTwo(parts: seq<string>, sep: char)
    requires |parts| == 2
    ensures Join(parts, sep) == parts[0] + [sep] + parts[1]
  {
    assert parts[1..] == [parts[1]];
  }

  /** A string with exactly one `sep` is cut there in only one way. */
  lemma SameCut(a: string, b: string, c: string, d: string, sep: char)
    requires sep !in a && sep !in b && sep !in c && sep !in d
    requires a + [sep] + b == c + [sep] + d
    ensures a == c && b == d
  {
    var s := a + [sep] + b;
    if |a| < |c| {
      SepInside(c, d, a, sep);
      assert false;
    } else if |c| < |a| {
      SepInside(a, b, c, sep);
      assert false;
    }
    assert a == s[..|a|];
    assert c == s[..|c|];
    assert b == s[|a| + 1..];
    assert d == s[|c| + 1..];
  }

  lemma SepInside(x: string, y: string, z: string, sep: char)
    requires |z| < |x|
    ensures (x + [sep] + y)[|z|] == x[|z|]
  {
  }

  /** Python's `s.replace(target, repl)` for one-character arguments. */
  function Replace(s: string, target: char, repl: char): (r: string)
    ensures |r| == |s|
    ensures forall i :: 0 <= i < |s| ==> r[i] == (if s[i] == target then repl else s[i])
  {
    if s == [] then []
    else [if s[0] == target then repl else s[0]] + Replace(s[1..], target, repl)
  }

  /** The ASCII white space `int()` skips before and after the number. */
  predicate IsSpace(c: char)
  {
    c == ' ' || c == '\t' || c == '\n' || c == '\r' || c == 11 as char || c == 12 as char
  }

  /** The suffix `int()` reads after dropping the leading white space. */
  function TrimStart(s: string): (r: string)
    ensures |r| <= |s| && r == s[|s| - |r|..]
    ensures forall k :: 0 <= k < |s| - |r| ==> IsSpace(s[k])
    ensures r == [] || !IsSpace(r[0])
  {
    if s != [] && IsSpace(s[0]) then TrimStart(s[1..]) else s
  }

  /** The prefix `int()` reads after dropping the trailing white space. */
  function TrimEnd(s: string): (r: string)
    ensures |r| <= |s| && r == s[..|r|]
    ensures forall k :: |r| <= k < |s| ==> IsSpace(s[k])
    ensures r == [] || !IsSpace(r[|r| - 1])
  {
    if s != [] && IsSpace(s[|s| - 1]) then TrimEnd(s[..|s| - 1]) else s
  }

  function Strip(s: string): string
  {
    TrimEnd(TrimStart(s))
  }

  predicate IsDigit(c: char)
  {
    '0' <= c <= '9'
  }

  function DigitChar(d: nat): (c: char)
    requires d < 10
    ensures IsDigit(c)
  {
    ('0' as int + d) as char
  }

  function DigitValue(c: char): (d: nat)
    requires IsDigit(c)
    ensures d < 10 && DigitChar(d) == c
  {
    c as int - '0' as int
  }

  /**
   * The digit groups Python's `int()` accepts: digits, where a single `_` may
   * stand between two digits.
   */
  predicate IsDigitGroup(s: string)
  {
    && |s| > 0
    && IsDigit(s[0])
    && IsDigit(s[|s| - 1])
    && (forall i :: 0 <= i < |s| ==> IsDigit(s[i]) || s[i] == '_')
    && (forall i :: 0 <= i < |s| - 1 ==> s[i] != '_' || s[i + 1] != '_')
  }

  function DropUnderscores(s: string): string
  {
    if s == [] then [] else (if s[0] == '_' then [] else [s[0]]) + DropUnderscores(s[1..])
  }

  predicate AllDigits(s: string)
  {
    forall i :: 0 <= i < |s| ==> IsDigit(s[i])
  }

  lemma {:induction false} DropUnderscoresDigits(s: string)
    requires forall i :: 0 <= i < |s| ==> IsDigit(s[i]) || s[i] == '_'
    ensures AllDigits(DropUnderscores(s))
  {
    if s != [] {
      DropUnderscoresDigits(s[1..]);
    }
  }

  lemma {:induction false} DropUnderscoresNone(s: string)
    requires AllDigits(s)
    ensures DropUnderscores(s) == s
  {
    if s != [] {
      DropUnderscoresNone(s[1..]);
      assert s == [s[0]] + s[1..];
    }
  }

  /** The number a string of decimal digits denotes, most significant first. */
  function DecimalValue(s: string): nat
    requires AllDigits(s)
  {
    if s == [] then 0 else 10 * DecimalValue(s[..|s| - 1]) + DigitValue(s[|s| - 1])
  }

  /** Python's `str(n)` for a natural number: decimal, no leading zeros. */
  function FormatNat(n: nat): (s: string)
    ensures |s| > 0 && AllDigits(s)
  {
    if n < 10 then [DigitChar(n)] else FormatNat(n / 10) + [DigitChar(n % 10)]
  }

  /** Python's `str(n)` for an integer. */
  function FormatInt(n: int): (s: string)
  {
    if n < 0 then "-" + FormatNat(-n) else FormatNat(n)
  }

  /**
   * The default limit on the number of digits `int()` converts from a string
   * (`sys.get_int_max_str_digits()`); underscores do not count.
   */
  const MaxStrDigits: nat := 4300

  /**
   * Python's `int(s)`: `None` where Python raises `ValueError`. Text that is
   * empty once white space is skipped is refused; accepted text ends in a
   * digit, and a negative value needs a leading `-`.
   */
  function ParseInt(s: string): (r: Option<int>)
    ensures Strip(s) == [] ==> r.None?
    ensures r.Some? ==> var t := Strip(s); |t| > 0 && IsDigit(t[|t| - 1])
    ensures r.Some? && r.value < 0 ==> Strip(s)[0] == '-'
  {
    var t := Strip(s);
    if |t| > 0 && (t[0] == '-' || t[0] == '+') then
      match ParseDigitGroup(t[1..])
      case None => None
      case Some(n) => Some(if t[0] == '-' then -(n as int) else n as int)
    else
      match ParseDigitGroup(t)
      case None => None
      case Some(n) => Some(n)
  }

  function ParseDigitGroup(s: string): (r: Option<nat>)
    ensures r.Some? ==> IsDigitGroup(s)
  {
    if IsDigitGroup(s) && |DropUnderscores(s)| <= MaxStrDigits then
      DropUnderscoresDigits(s);
      Some(DecimalValue(DropUnderscores(s)))
    else None
  }

  lemma {:induction false} DecimalFormat(n: nat)
    ensures DecimalValue(FormatNat(n)) == n
  {
    var s := FormatNat(n);
    if n >= 10 {
      DecimalFormat(n / 10);
      assert s[..|s| - 1] == FormatNat(n / 10);
    }
  }

  lemma ParseDigitGroupFormat(n: nat)
    requires |FormatNat(n)| <= MaxStrDigits
    ensures ParseDigitGroup(FormatNat(n)) == Some(n)
  {
    var s := FormatNat(n);
    DropUnderscoresNone(s);
    DecimalFormat(n);
  }

  /**
   * `int(str(n)) == n` for every integer of at most `MaxStrDigits` digits
   * (Python refuses both conversions beyond), also with white space around.
   */
  lemma ParseIntFormat(n: int, pre: string, post: string)
    requires |FormatNat(if n < 0 then -n else n)| <= MaxStrDigits
    requires forall i :: 0 <= i < |pre| ==> IsSpace(pre[i])
    requires forall i :: 0 <= i < |post| ==> IsSpace(post[i])
    ensures ParseInt(pre + FormatInt(n) + post) == Some(n)
  {
    var f := FormatInt(n);
    StripAround(pre, f, post);
    ParseDigitGroupFormat(if n < 0 then -n else n);
    if n < 0 {
      assert f[0] == '-' && f[1..] == FormatNat(-n);
    } else {
      assert IsDigit(f[0]);
    }
  }

  /** The number a digit group denotes, its underscores ignored. */
  function GroupValue(g: string): nat
    requires IsDigitGroup(g)
  {
    DropUnderscoresDigits(g);
    DecimalValue(DropUnderscores(g))
  }

  /** A digit group `int()` converts: within the digit limit. */
  predicate ConvertibleGroup(g: string)
  {
    IsDigitGroup(g) && |DropUnderscores(g)| <= MaxStrDigits
  }

  /** The text `int()` accepts once white space is skipped: an optional sign, then a convertible digit group. */
  predicate IntText(t: string)
  {
    if |t| > 0 && (t[0] == '+' || t[0] == '-') then ConvertibleGroup(t[1..]) else ConvertibleGroup(t)
  }

  /** `int()` refuses exactly the text that is not an optional sign followed by a convertible digit group. */
  lemma ParseIntAccepts(s: string)
    ensures ParseInt(s).Some? <==> IntText(Strip(s))
  {
  }

  /** The value of every accepted text: the digit group's value, negated after a `-`. */
  lemma ParseIntValue(pre: string, sign: string, g: string, post: string)
    requires forall i :: 0 <= i < |pre| ==> IsSpace(pre[i])
    requires forall i :: 0 <= i < |post| ==> IsSpace(post[i])
    requires sign == "" || sign == "+" || sign == "-"
    requires ConvertibleGroup(g)
    ensures ParseInt(pre + sign + g + post) == Some(if sign == "-" then -(GroupValue(g) as int) else GroupValue(g) as int)
  {
    var t := sign + g;
    assert pre + sign + g + post == pre + t + post;
    assert t[0] == '+' || t[0] == '-' || IsDigit(t[0]);
    assert t[|t| - 1] == g[|g| - 1];
    StripAround(pre, t, post);
    ParseIntStripped(pre + t + post, sign, g);
  }

  /** A port with a letter inside or a doubled `_` is refused. */
  lemma ParseIntRefusedExamples()
    ensures ParseInt("8o80") == None && ParseInt("1__0") == None
  {
    RefusedText("8o80", 1);
    RefusedText("1__0", 2);
  }

  lemma RefusedText(t: string, i: nat)
    requires 0 < i < |t| - 1 && IsDigit(t[0]) && IsDigit(t[|t| - 1])
    requires (!IsDigit(t[i]) && t[i] != '_') || (t[i] == '_' && t[i - 1] == '_')
    ensures ParseInt(t) == None
  {
    assert Strip(t) == t by {
      StripAround([], t, []);
      assert [] + t + [] == t;
    }
    assert !IsDigitGroup(t) by {
      if t[i] == '_' {
        assert t[i - 1] == '_' && t[i - 1 + 1] == '_';
      } else {
        assert !(IsDigit(t[i]) || t[i] == '_');
      }
    }
    ParseIntAccepts(t);
  }

  /** A sign, leading zeros and `_` between digits are read as Python reads them. */
  lemma ParseIntValueExamples()
    ensures ParseInt(" +5 ") == Some(5) && ParseInt("007") == Some(7) && ParseInt("1_000") == Some(1000)
  {
    SignedExample();
    LeadingZerosExample();
    UnderscoreExample();
  }

  lemma SignedExample()
    ensures ParseInt(" +5 ") == Some(5)
  {
    var g := "5";
    assert ConvertibleGroup(g);
    assert GroupValue(g) == 5 by {
      assert DropUnderscores(g) == "5";
      assert "5"[..0] == [];
    }
    assert " " + "+" + g + " " == " +5 ";
    ParseIntValue(" ", "+", g, " ");
  }

  lemma LeadingZerosExample()
    ensures ParseInt("007") == Some(7)
  {
    var g := "007";
    assert ConvertibleGroup(g);
    assert GroupValue(g) == 7 by {
      assert DropUnderscores(g) == "007";
      assert "007"[..2] == "00" && "00"[..1] == "0" && "0"[..0] == [];
    }
    assert [] + [] + g + [] == g;
    ParseIntValue([], [], g, []);
  }

  lemma UnderscoreExample()
    ensures ParseInt("1_000") == Some(1000)
  {
    var g := "1_000";
    assert ConvertibleGroup(g);
    assert GroupValue(g) == 1000 by {
      assert DropUnderscores(g) == "1000";
      assert "1000"[..3] == "100" && "100"[..2] == "10" && "10"[..1] == "1" && "1"[..0] == [];
    }
    assert [] + [] + g + [] == g;
    ParseIntValue([], [], g, []);
  }

  lemma ParseIntStripped(s: string, sign: string, g: string)
    requires sign == "" || sign == "+" || sign == "-"
    requires ConvertibleGroup(g) && Strip(s) == sign + g
    ensures ParseInt(s) == Some(if sign == "-" then -(GroupValue(g) as int) else GroupValue(g) as int)
  {
    var t := sign + g;
    assert ParseDigitGroup(g) == Some(GroupValue(g));
    if sign != "" {
      assert t[0] == sign[0] && t[1..] == g;
    } else {
      assert t == g && IsDigit(t[0]);
    }
  }

  /** Python refuses to convert more than `MaxStrDigits` digits. */
  lemma ParseIntTooManyDigits(s: string)
    requires |s| > MaxStrDigits && AllDigits(s)
    ensures ParseInt(s) == None
  {
    StripAround([], s, []);
    assert [] + s + [] == s;
    DropUnderscoresNone(s);
  }

  lemma StripAround(pre: string, f: string, post: string)
    requires forall i :: 0 <= i < |pre| ==> IsSpace(pre[i])
    requires forall i :: 0 <= i < |post| ==> IsSpace(post[i])
    requires f != [] && !IsSpace(f[0]) && !IsSpace(f[|f| - 1])
    ensures Strip(pre + f + post) == f
  {
    assert pre + f + post == pre + (f + post);
    TrimStartSpaces(pre, f + post);
    TrimEndSpaces(f, post);
  }

  lemma {:induction false} TrimStartSpaces(pre: string, t: string)
    requires forall i :: 0 <= i < |pre| ==> IsSpace(pre[i])
    requires t != [] && !IsSpace(t[0])
    ensures TrimStart(pre + t) == t
  {
    if pre != [] {
      assert (pre + t)[1..] == pre[1..] + t;
      TrimStartSpaces(pre[1..], t);
    }
  }

  lemma {:induction false} TrimEndSpaces(t: string, post: string)
    requires forall i :: 0 <= i < |post| ==> IsSpace(post[i])
    requires t != [] && !IsSpace(t[|t| - 1])
    ensures TrimEnd(t + post) == t
  {
    if post != [] {
      var p := post[..|post| - 1];
      assert (t + post)[..|t + post| - 1] == t + p;
      TrimEndSpaces(t, p);
    } else {
      assert t + post == t;
    }
  }
}
