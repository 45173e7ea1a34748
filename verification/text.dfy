/**
  Text primitives the command parser is built from: splitting at the first
  occurrence of a character, ASCII lower-casing, deleting every occurrence of
  a character, and reading / writing unsigned decimal numbers the way Rust's
  `str::parse::<usize>` and `Display for usize` do on a 64-bit target.
 */
module Text {
  import opened Common

  /** Largest value of a 64-bit `usize`. */
  const USIZE_MAX: nat := 0xFFFF_FFFF_FFFF_FFFF

  type Usize = n: nat | n <= USIZE_MAX

  /** `str::split_once(c)`: the text before and after the first `c`. */
  function SplitOnce(s: string, c: char): (r: Option<(string, string)>)
    ensures r.None? <==> c !in s
    ensures r.Some? ==> s == r.value.0 + [c] + r.value.1 && c !in r.value.0
  {
    if |s| == 0 then None
    else if s[0] == c then
      assert s == [] + [c] + s[1..];
      Some(([], s[1..]))
    else
      match SplitOnce(s[1..], c)
      case None => None
      case Some((a, b)) =>
        assert s == [s[0]] + s[1..] && s[1..] == a + [c] + b;
        assert s == ([s[0]] + a) + [c] + b;
        Some(([s[0]] + a, b))
  }

  /** Splitting `a + [c] + b` where `a` has no `c` gives back exactly `a` and `b`. */
  lemma {:induction false} SplitOnceAt(a: string, c: char, b: string)
    requires c !in a
    ensures SplitOnce(a + [c] + b, c) == Some((a, b))
  {
    var s := a + [c] + b;
    if a == [] {
      assert s[0] == c && s[1..] == b;
    } else {
      assert s[0] == a[0] && s[0] != c;
      assert s[1..] == a[1..] + [c] + b;
      SplitOnceAt(a[1..], c, b);
      assert [a[0]] + a[1..] == a;
    }
  }

  /** Regrouping of space-joined words, for splitting at the first space. */
  lemma JoinRight3(a: string, b: string, c: string)
    ensures a + " " + b + " " + c == a + [' '] + (b + [' '] + c)
  {
  }

  lemma JoinRight4(a: string, b: string, c: string, d: string)
    ensures a + " " + b + " " + c + " " + d == a + [' '] + (b + [' '] + (c + [' '] + d))
  {
  }

  /** ASCII lower-casing of one character. */
  function LowerChar(c: char): char
  {
    if 'A' <= c <= 'Z' then (c as int + 32) as char else c
  }

  predicate IsUpper(c: char)
  {
    'A' <= c <= 'Z'
  }

  /** `str::to_lowercase`, restricted to ASCII letters. */
  function Lower(s: string): (r: string)
    ensures |r| == |s|
    ensures forall i :: 0 <= i < |s| ==> !IsUpper(r[i])
    ensures forall i :: 0 <= i < |s| && !IsUpper(s[i]) ==> r[i] == s[i]
    ensures forall i :: 0 <= i < |s| && IsUpper(s[i]) ==> r[i] as int == s[i] as int + 32
  {
    seq(|s|, i requires 0 <= i < |s| => LowerChar(s[i]))
  }

  lemma LowerConcat(a: string, b: string)
    ensures Lower(a + b) == Lower(a) + Lower(b)
  {
  }

  /** `s.chars().filter(|x| *x != c).collect()`: `s` with every `c` deleted. */
  function Strip(s: string, c: char): (r: string)
    ensures |r| <= |s| && c !in r
    decreases |s|
  {
    if |s| == 0 then []
    else (if s[0] == c then [] else [s[0]]) + Strip(s[1..], c)
  }

  /** Deleting `c` keeps every other character, and brings in none. */
  lemma {:induction false} StripMembers(s: string, c: char)
    ensures forall x :: x in Strip(s, c) <==> x in s && x != c
    decreases |s|
  {
    if |s| > 0 {
      StripMembers(s[1..], c);
      assert s == [s[0]] + s[1..];
    }
  }

  lemma {:induction false} StripConcat(a: string, b: string, c: char)
    ensures Strip(a + b, c) == Strip(a, c) + Strip(b, c)
    decreases |a|
  {
    if |a| == 0 {
      assert a + b == b;
    } else {
      var head := if a[0] == c then [] else [a[0]];
      var rest := Strip(a[1..], c);
      assert Strip(a + b, c) == head + Strip(a[1..] + b, c) by {
        assert (a + b)[0] == a[0] && (a + b)[1..] == a[1..] + b;
      }
      StripConcat(a[1..], b, c);
      assert head + (rest + Strip(b, c)) == (head + rest) + Strip(b, c);
    }
  }

  lemma {:induction false} StripAbsent(s: string, c: char)
    requires c !in s
    ensures Strip(s, c) == s
    decreases |s|
  {
    if |s| > 0 {
      StripAbsent(s[1..], c);
    }
  }

  /** The normal form the parser gives a row token: lower-cased, every `r` deleted. */
  function Normalize(token: string): (r: string)
    ensures 'r' !in r && 'R' !in r
    ensures |r| <= |token|
    ensures forall x :: x in token && !IsUpper(x) && x != 'r' ==> x in r
  {
    var lowered := Lower(token);
    StripMembers(lowered, 'r');
    forall x | x in token && !IsUpper(x) && x != 'r' ensures x in lowered {
      var i :| 0 <= i < |token| && token[i] == x;
      assert lowered[i] == x;
    }
    Strip(lowered, 'r')
  }

  /** Normalising a concatenation normalises each part. */
  lemma NormalizeConcat(a: string, b: string)
    ensures Normalize(a + b) == Normalize(a) + Normalize(b)
  {
    LowerConcat(a, b);
    StripConcat(Lower(a), Lower(b), 'r');
  }

  /** One character normalises to its lower-case form, or vanishes when that is `r`. */
  lemma NormalizeChar(c: char)
    ensures Normalize([c]) == if LowerChar(c) == 'r' then [] else [LowerChar(c)]
  {
    assert Lower([c]) == [LowerChar(c)];
    assert Strip([LowerChar(c)], 'r') == (if LowerChar(c) == 'r' then [] else [LowerChar(c)]) + Strip([], 'r');
  }

  /**
    Normalising keeps order: what comes before `c` comes out before `c`
    lower-cased, which survives unless it is `r`, and what follows after.
   */
  lemma NormalizeAt(before: string, c: char, after: string)
    ensures LowerChar(c) == 'r' ==>
      Normalize(before + [c] + after) == Normalize(before) + Normalize(after)
    ensures LowerChar(c) != 'r' ==>
      Normalize(before + [c] + after) == Normalize(before) + [LowerChar(c)] + Normalize(after)
  {
    var front := before + [c];
    NormalizeConcat(front, after);
    NormalizeConcat(before, [c]);
    NormalizeChar(c);
    var nb, na := Normalize(before), Normalize(after);
    if LowerChar(c) == 'r' {
      assert Normalize(front) == nb;
    } else {
      assert Normalize(front) == nb + [LowerChar(c)];
    }
  }

  /** Every character other than `r` and `R` survives normalisation, lower-cased. */
  lemma NormalizeKeeps(token: string)
    ensures forall i :: 0 <= i < |token| && LowerChar(token[i]) != 'r' ==> LowerChar(token[i]) in Normalize(token)
  {
    forall i | 0 <= i < |token| && LowerChar(token[i]) != 'r'
      ensures LowerChar(token[i]) in Normalize(token)
    {
      var before, after := token[..i], token[i + 1..];
      assert token == before + [token[i]] + after;
      NormalizeAt(before, token[i], after);
      assert Normalize(token)[|Normalize(before)|] == LowerChar(token[i]);
    }
  }

  predicate IsLetter(c: char)
  {
    'a' <= c <= 'z' || 'A' <= c <= 'Z'
  }

  predicate IsDigit(c: char)
  {
    '0' <= c <= '9'
  }

  predicate AllDigits(s: string)
  {
    forall i :: 0 <= i < |s| ==> IsDigit(s[i])
  }

  function DigitValue(c: char): nat
    requires IsDigit(c)
  {
    c as int - '0' as int
  }

  function DigitChar(d: nat): (c: char)
    requires d < 10
    ensures IsDigit(c) && DigitValue(c) == d
  {
    ('0' as int + d) as char
  }

  /** The value of a string of decimal digits, most significant first. */
  function DigitsValue(s: string): nat
    requires AllDigits(s)
  {
    if s == [] then 0 else 10 * DigitsValue(s[..|s| - 1]) + DigitValue(s[|s| - 1])
  }

  /**
    `str::parse::<usize>`: an optional leading `+`, then one or more ASCII
    digits (leading zeros allowed) whose value fits in a `usize`.
   */
  function ParseUsize(s: string): (r: Option<Usize>)
    ensures r.Some? ==> |s| > 0 && forall i :: 0 <= i < |s| ==> IsDigit(s[i]) || (i == 0 && s[i] == '+')
  {
    var digits := if |s| > 0 && s[0] == '+' then s[1..] else s;
    if |digits| > 0 && AllDigits(digits) && DigitsValue(digits) <= USIZE_MAX then
      Some(DigitsValue(digits))
    else
      None
  }

  /** `Display for usize`: the shortest decimal rendering of `n`. */
  function Dec(n: nat): (r: string)
    ensures |r| > 0 && AllDigits(r)
    ensures |r| > 1 ==> r[0] != '0'
    decreases n
  {
    if n < 10 then [DigitChar(n)] else Dec(n / 10) + [DigitChar(n % 10)]
  }

  /** Reading back a rendered number gives the number. */
  lemma {:induction false} DigitsValueDec(n: nat)
    ensures DigitsValue(Dec(n)) == n
    decreases n
  {
    if n >= 10 {
      var s := Dec(n);
      assert s[..|s| - 1] == Dec(n / 10);
      DigitsValueDec(n / 10);
    }
  }

  /** `parse::<usize>` inverts `Display for usize`. */
  lemma ParseDec(n: Usize)
    ensures ParseUsize(Dec(n)) == Some(n)
  {
    DigitsValueDec(n);
  }

  /** Two numbers with the same rendering are equal. */
  lemma DecInjective(a: nat, b: nat)
    requires Dec(a) == Dec(b)
    ensures a == b
  {
    DigitsValueDec(a);
    DigitsValueDec(b);
  }

  /** A digit string is already in normal form. */
  lemma NormalizeDigits(s: string)
    requires AllDigits(s)
    ensures Normalize(s) == s
  {
    assert Lower(s) == s;
    StripAbsent(s, 'r');
  }

  /** An `r` on either side of a digit string is dropped by normalisation. */
  lemma NormalizeWrapped(s: string)
    requires AllDigits(s)
    ensures Normalize("r" + s + "r") == s
  {
    NormalizeAt([], 'r', s + "r");
    NormalizeAt(s, 'r', []);
    NormalizeDigits(s);
    assert Normalize([]) == [];
    assert "r" + s + "r" == [] + ['r'] + (s + "r");
    assert s + "r" == s + ['r'] + [];
  }

  /** A leading `R` (or `r`) is dropped by normalisation. */
  lemma NormalizeDropsPrefix(s: string)
    requires AllDigits(s)
    ensures Normalize("R" + s) == s
    ensures Normalize("r" + s) == s
  {
    LowerConcat("R", s);
    LowerConcat("r", s);
    assert Lower("R") == "r" && Lower("r") == "r";
    assert Lower(s) == s;
    StripConcat("r", s, 'r');
    StripAbsent(s, 'r');
  }
}
