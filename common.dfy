/** Shared vocabulary of the puzzle models: an option type, Python-style
    indexing, and the small text helpers (digits, splitting) that several
    parsers rely on. */
module Common {

  datatype Option<T> = None | Some(value: T)

  /** Python's `seq[i]` for a possibly negative index: -n <= i < n is valid,
      a negative index counts from the end, anything else is an IndexError (None). */
  function PyIndex(n: nat, i: int): (r: Option<nat>)
    ensures r.Some? <==> -(n as int) <= i < n
    ensures r.Some? ==> r.value < n && (r.value as int == i || r.value as int == i + n)
  {
    if 0 <= i < n then Some(i) else if -(n as int) <= i < 0 then Some(i + n) else None
  }

  predicate IsDigit(c: char) { '0' <= c <= '9' }

  predicate AllDigits(s: string) { forall i :: 0 <= i < |s| ==> IsDigit(s[i]) }

  function DigitValue(c: char): (d: nat)
    requires IsDigit(c)
    ensures d < 10
  {
    c as int - '0' as int
  }

  /** The decimal value of a run of digits, read left to right as `int()` does. */
  function DigitsValue(s: string): nat
    requires AllDigits(s)
  {
    if s == [] then 0 else DigitsValue(s[..|s| - 1]) * 10 + DigitValue(s[|s| - 1])
  }

  /** `int(token)` for a token taken from `str.split()`: an optional sign and
      at least one digit; anything else raises ValueError (None). */
  function ParseInt(s: string): (r: Option<int>)
    ensures r.Some? ==> |s| > 0
  {
    if |s| > 0 && AllDigits(s) then Some(DigitsValue(s))
    else if |s| > 1 && s[0] == '-' && AllDigits(s[1..]) then Some(0 - DigitsValue(s[1..]))
    else if |s| > 1 && s[0] == '+' && AllDigits(s[1..]) then Some(DigitsValue(s[1..]))
    else None
  }

  /** Parses every token; None if any token is not an integer. */
  function ParseInts(ts: seq<string>): (r: Option<seq<int>>)
    ensures r.Some? ==> |r.value| == |ts|
  {
    if ts == [] then Some([])
    else match ParseInt(ts[0])
      case None => None
      case Some(v) =>
        match ParseInts(ts[1..])
        case None => None
        case Some(vs) => Some([v] + vs)
  }

  /** Concatenation regroups freely. */
  lemma Regroup<T>(a: seq<T>, b: seq<T>, c: seq<T>)
    ensures a + (b + c) == (a + b) + c
  {
  }

  lemma {:induction false} ParseIntsEach(ts: seq<string>)
    ensures ParseInts(ts).Some? <==> forall j :: 0 <= j < |ts| ==> ParseInt(ts[j]).Some?
    ensures ParseInts(ts).Some? ==> forall j :: 0 <= j < |ts| ==> ParseInt(ts[j]) == Some(ParseInts(ts).value[j])
  {
    if ts != [] {
      ParseIntsEach(ts[1..]);
      assert forall j :: 1 <= j < |ts| ==> ts[1..][j - 1] == ts[j];
    }
  }

  /** `str(n)`: a minus sign before the digits of a negative number. */
  function IntText(n: int): (s: string)
    ensures s != [] && (n >= 0 ==> s == Decimal(n))
  {
    if n < 0 then "-" + Decimal(-n) else Decimal(n)
  }

  /** `int(str(n)) == n`. */
  lemma ParseIntWritten(n: int)
    ensures ParseInt(IntText(n)) == Some(n)
  {
    if n < 0 {
      assert IntText(n)[1..] == Decimal(-n);
      assert !IsDigit(IntText(n)[0]);
    }
  }

  /** `[str(x) for x in xs]`. */
  function IntTexts(xs: seq<int>): (ts: seq<string>)
    ensures |ts| == |xs| && forall i :: 0 <= i < |xs| ==> ts[i] == IntText(xs[i])
  {
    seq(|xs|, i requires 0 <= i < |xs| => IntText(xs[i]))
  }

  /** Written numbers are parsed back to themselves. */
  lemma ParseIntsWritten(xs: seq<int>)
    ensures ParseInts(IntTexts(xs)) == Some(xs)
  {
    var ts := IntTexts(xs);
    forall j | 0 <= j < |ts|
      ensures ParseInt(ts[j]) == Some(xs[j])
    {
      ParseIntWritten(xs[j]);
    }
    ParseIntsEach(ts);
    var vs := ParseInts(ts).value;
    assert |vs| == |xs| && forall j :: 0 <= j < |xs| ==> vs[j] == xs[j];
    assert vs == xs;
  }

  /** A written number holds no whitespace and no separator other than '-'. */
  lemma IntTextChars(n: int, c: char)
    requires !IsDigit(c) && c != '-'
    ensures c !in IntText(n) && forall j :: 0 <= j < |IntText(n)| ==> !IsSpace(IntText(n)[j])
  {
    var d := Decimal(if n < 0 then -n else n);
    assert forall j :: 0 <= j < |d| ==> IsDigit(d[j]);
  }

  /** Numbers written one after another, each after a single space. */
  function Spaced(xs: seq<int>): string
  {
    if xs == [] then "" else " " + IntText(xs[0]) + Spaced(xs[1..])
  }

  /** Written numbers start with their space. */
  lemma SpacedStart(xs: seq<int>)
    requires xs != []
    ensures |Spaced(xs)| >= 2 && Spaced(xs)[0] == ' '
  {
  }

  /** Written numbers hold no character other than digits, '-' and spaces. */
  lemma {:induction false} SpacedChars(xs: seq<int>, c: char)
    requires !IsDigit(c) && c != '-' && c != ' '
    ensures c !in Spaced(xs)
  {
    if xs != [] {
      IntTextChars(xs[0], c);
      SpacedChars(xs[1..], c);
    }
  }

  /** `split()` of numbers written with single spaces, followed by a text that
      starts with whitespace, gives the written numbers and then the text's words. */
  lemma {:induction false} WordsSpaced(xs: seq<int>, tail: string)
    requires tail == [] || IsSpace(tail[0])
    ensures Words(Spaced(xs) + tail) == IntTexts(xs) + Words(tail)
  {
    if xs == [] {
      assert Spaced(xs) + tail == tail;
      assert IntTexts(xs) + Words(tail) == Words(tail);
    } else {
      var d, ds := IntText(xs[0]), IntTexts(xs[1..]);
      IntTextChars(xs[0], ' ');
      if xs[1..] != [] {
        SpacedStart(xs[1..]);
      }
      WordsSpaced(xs[1..], tail);
      WordsCons(d, Spaced(xs[1..]), tail, ds);
      IntTextsCons(xs);
    }
  }

  lemma IntTextsCons(xs: seq<int>)
    requires xs != []
    ensures IntTexts(xs) == [IntText(xs[0])] + IntTexts(xs[1..])
  {
    var r := [IntText(xs[0])] + IntTexts(xs[1..]);
    assert forall i :: 0 <= i < |xs| ==> r[i] == IntText(xs[i]);
  }

  /** A space and a word before a text whose words are known. */
  lemma WordsCons(d: string, rest: string, tail: string, ds: seq<string>)
    requires d != [] && forall j :: 0 <= j < |d| ==> !IsSpace(d[j])
    requires rest + tail == [] || IsSpace((rest + tail)[0])
    requires Words(rest + tail) == ds + Words(tail)
    ensures Words(" " + d + rest + tail) == [d] + ds + Words(tail)
  {
    Regroup(" " + d, rest, tail);
    WordsLead(d, rest + tail);
    Regroup([d], ds, Words(tail));
  }

  /** Two words joined by a space split back into those two words. */
  lemma WordsPair(a: string, b: string)
    requires a != [] && forall j :: 0 <= j < |a| ==> !IsSpace(a[j])
    requires b != [] && forall j :: 0 <= j < |b| ==> !IsSpace(b[j])
    ensures Words(a + " " + b) == [a, b]
  {
    WordsSpace(a + " " + b);
    assert " " + (a + " " + b) == " " + a + (" " + b);
    WordsLead(a, " " + b);
    assert " " + b == " " + b + [];
    WordsLead(b, []);
  }

  /** A leading space adds no word. */
  lemma WordsSpace(t: string)
    ensures Words(" " + t) == Words(t)
  {
    assert (" " + t)[1..] == t;
  }

  /** A space, a word, then a text that starts with whitespace: the word comes first. */
  lemma WordsLead(d: string, r: string)
    requires d != [] && forall j :: 0 <= j < |d| ==> !IsSpace(d[j])
    requires r == [] || IsSpace(r[0])
    ensures Words(" " + d + r) == [d] + Words(r)
  {
    assert (" " + d + r)[1..] == d + r;
    WordEndAt(d + r, |d|);
    assert (d + r)[..|d|] == d && (d + r)[|d|..] == r;
  }

  /** A word that runs to a whitespace character or the end stops there. */
  lemma WordEndAt(s: string, k: nat)
    requires k <= |s| && (k < |s| ==> IsSpace(s[k]))
    requires forall j :: 0 <= j < k ==> !IsSpace(s[j])
    ensures WordEnd(s, 0) == k
  {
    WordEndFrom(s, 0, k);
  }

  lemma WordEndFrom(s: string, i: nat, k: nat)
    requires i <= k <= |s| && (k < |s| ==> IsSpace(s[k]))
    requires forall j :: i <= j < k ==> !IsSpace(s[j])
    ensures WordEnd(s, i) == k
    decreases k - i
  {
    if i < k {
      WordEndFrom(s, i + 1, k);
    }
  }

  predicate IsSpace(c: char) { c == ' ' || c == '\t' || c == '\n' || c == '\r' }

  /** `s.split()`: the maximal runs of non-whitespace characters, in order. */
  function Words(s: string): (ws: seq<string>)
    ensures forall i, j :: 0 <= i < |ws| && 0 <= j < |ws[i]| ==> !IsSpace(ws[i][j])
    ensures forall i :: 0 <= i < |ws| ==> ws[i] != []
    decreases |s|
  {
    if s == [] then []
    else if IsSpace(s[0]) then Words(s[1..])
    else
      var k := WordEnd(s, 0);
      [s[..k]] + Words(s[k..])
  }

  /** The end of the run of non-whitespace characters that starts at i. */
  function WordEnd(s: string, i: nat): (k: nat)
    requires i <= |s|
    ensures i <= k <= |s|
    ensures forall j :: i <= j < k ==> !IsSpace(s[j])
    ensures k < |s| ==> IsSpace(s[k])
    ensures i < |s| && !IsSpace(s[i]) ==> k > i
    decreases |s| - i
  {
    if i == |s| || IsSpace(s[i]) then i else WordEnd(s, i + 1)
  }

  /** The end of the run of digits that starts at i (the extent of a greedy `\d+`). */
  function DigitRunEnd(s: string, i: nat): (k: nat)
    requires i <= |s|
    ensures i <= k <= |s|
    ensures AllDigits(s[i..k])
    ensures k < |s| ==> !IsDigit(s[k])
    decreases |s| - i
  {
    if i == |s| || !IsDigit(s[i]) then i else DigitRunEnd(s, i + 1)
  }

  /** A digit run ends at the first character that is not a digit. */
  lemma DigitRunEndAt(s: string, i: nat, k: nat)
    requires i <= k < |s| && AllDigits(s[i..k]) && !IsDigit(s[k])
    ensures DigitRunEnd(s, i) == k
    decreases k - i
  {
    if i < k {
      assert s[i] == s[i..k][0];
      assert s[i + 1..k] == s[i..k][1..];
      DigitRunEndAt(s, i + 1, k);
    }
  }

  /** The decimal text of n, as `str(n)` writes it. */
  function Decimal(n: nat): (s: string)
    ensures s != [] && AllDigits(s) && DigitsValue(s) == n
  {
    var last := ['0' + (n % 10) as char];
    assert DigitValue(last[0]) == n % 10;
    if n < 10 then last
    else
      var front := Decimal(n / 10);
      var s := front + last;
      assert s[..|s| - 1] == front;
      s
  }

  /** A character of `\w` (ASCII letters, digits and '_'). */
  predicate IsWordChar(ch: char)
  {
    'a' <= ch <= 'z' || 'A' <= ch <= 'Z' || '0' <= ch <= '9' || ch == '_'
  }

  /** The end of the run of word characters that starts at i (a greedy `\w+`). */
  function WordRunEnd(s: string, i: nat): (k: nat)
    requires i <= |s|
    ensures i <= k <= |s|
    ensures forall j :: i <= j < k ==> IsWordChar(s[j])
    ensures k < |s| ==> !IsWordChar(s[k])
    decreases |s| - i
  {
    if i == |s| || !IsWordChar(s[i]) then i else WordRunEnd(s, i + 1)
  }

  /** A word run ends at the first character that is not a word character. */
  lemma WordRunEndAt(s: string, i: nat, k: nat)
    requires i <= k < |s| && !IsWordChar(s[k])
    requires forall j :: i <= j < k ==> IsWordChar(s[j])
    ensures WordRunEnd(s, i) == k
    decreases k - i
  {
    if i < k {
      WordRunEndAt(s, i + 1, k);
    }
  }

  /** True when t occurs in s starting at index i. */
  predicate HasAt(s: string, i: nat, t: string)
  {
    i + |t| <= |s| && s[i..i + |t|] == t
  }

  /** `s.split(sep)`: the pieces between occurrences of `sep`; always at least one piece. */
  function Split(s: string, sep: char): (parts: seq<string>)
    ensures |parts| >= 1
    ensures forall i, j :: 0 <= i < |parts| && 0 <= j < |parts[i]| ==> parts[i][j] != sep
    decreases |s|
  {
    var k := IndexOf(s, sep, 0);
    if k == |s| then [s] else [s[..k]] + Split(s[k + 1..], sep)
  }

  /** The first index at or after i holding c, or |s| if there is none. */
  function IndexOf(s: string, c: char, i: nat): (k: nat)
    requires i <= |s|
    ensures i <= k <= |s|
    ensures forall j :: i <= j < k ==> s[j] != c
    ensures k < |s| ==> s[k] == c
    decreases |s| - i
  {
    if i == |s| || s[i] == c then i else IndexOf(s, c, i + 1)
  }

  /** The first c at or after i is at k when none comes between. */
  lemma IndexOfAt(s: string, c: char, i: nat, k: nat)
    requires i <= k <= |s| && (k < |s| ==> s[k] == c)
    requires forall j :: i <= j < k ==> s[j] != c
    ensures IndexOf(s, c, i) == k
    decreases k - i
  {
    if i < k {
      IndexOfAt(s, c, i + 1, k);
    }
  }

  /** Splitting at a first separator: the piece before it, then the pieces
      of what follows. */
  lemma SplitFirst(a: string, b: string, sep: char)
    requires forall j :: 0 <= j < |a| ==> a[j] != sep
    ensures Split(a + [sep] + b, sep) == [a] + Split(b, sep)
  {
    var s := a + [sep] + b;
    IndexOfAt(s, sep, 0, |a|);
    assert s[..|a|] == a && s[|a| + 1..] == b;
  }

  /** A text without the separator is one piece. */
  lemma SplitNone(a: string, sep: char)
    requires forall j :: 0 <= j < |a| ==> a[j] != sep
    ensures Split(a, sep) == [a]
  {
    IndexOfAt(a, sep, 0, |a|);
  }

  /** `sep.join(ps)`: the pieces with one separator between neighbours. */
  function Join(ps: seq<string>, sep: char): (s: string)
    requires ps != []
    ensures |s| >= |ps[0]| && s[..|ps[0]|] == ps[0]
  {
    if |ps| == 1 then ps[0] else ps[0] + [sep] + Join(ps[1..], sep)
  }

  /** Splitting joined pieces that hold no separator gives the pieces back. */
  lemma {:induction false} SplitJoin(ps: seq<string>, sep: char)
    requires ps != []
    requires forall i :: 0 <= i < |ps| ==> sep !in ps[i]
    ensures Split(Join(ps, sep), sep) == ps
  {
    if |ps| == 1 {
      SplitNone(ps[0], sep);
    } else {
      SplitFirst(ps[0], Join(ps[1..], sep), sep);
      SplitJoin(ps[1..], sep);
    }
  }

  /** A character other than the separator occurs in the joined text only if
      it occurs in a piece. */
  lemma {:induction false} JoinAvoids(ps: seq<string>, sep: char, c: char)
    requires ps != [] && c != sep
    requires forall i :: 0 <= i < |ps| ==> c !in ps[i]
    ensures c !in Join(ps, sep)
  {
    if |ps| > 1 {
      JoinAvoids(ps[1..], sep, c);
    }
  }

  /** `s.strip()` for the whitespace characters the inputs use. */
  function Strip(s: string): (r: string)
    ensures |r| <= |s|
    ensures |r| > 0 ==> !IsSpace(r[0]) && !IsSpace(r[|r| - 1])
    decreases |s|
  {
    if s == [] then []
    else if IsSpace(s[0]) then Strip(s[1..])
    else if IsSpace(s[|s| - 1]) then Strip(s[..|s| - 1])
    else s
  }

  /** A text that starts and ends with non-space characters is its own strip. */
  lemma StripKeeps(s: string)
    requires s != [] && !IsSpace(s[0]) && !IsSpace(s[|s| - 1])
    ensures Strip(s) == s
  {
  }

  /** Stripping twice strips nothing more. */
  lemma StripStripped(s: string)
    ensures Strip(Strip(s)) == Strip(s)
  {
    var r := Strip(s);
    if r != [] {
      assert !IsSpace(r[0]) && !IsSpace(r[|r| - 1]);
    }
  }

  /** A text with a non-space character does not strip to nothing. */
  lemma StripNonEmpty(s: string, j: nat)
    requires j < |s| && !IsSpace(s[j])
    ensures Strip(s) != []
    decreases |s|
  {
    if IsSpace(s[0]) {
      StripNonEmpty(s[1..], j - 1);
    } else if IsSpace(s[|s| - 1]) {
      StripNonEmpty(s[..|s| - 1], j);
    }
  }

  /** `[line.strip() for line in lines]`. */
  function StripAll(input: seq<string>): (lines: seq<string>)
    ensures |lines| == |input| && forall y :: 0 <= y < |input| ==> lines[y] == Strip(input[y])
  {
    seq(|input|, y requires 0 <= y < |input| => Strip(input[y]))
  }

  function Sum(s: seq<int>): int
  {
    if s == [] then 0 else Sum(s[..|s| - 1]) + s[|s| - 1]
  }

  lemma {:induction false} SumAppend(a: seq<int>, b: seq<int>)
    ensures Sum(a + b) == Sum(a) + Sum(b)
    decreases |b|
  {
    if b == [] {
      assert a + b == a;
    } else {
      assert (a + b)[..|a + b| - 1] == a + b[..|b| - 1];
      SumAppend(a, b[..|b| - 1]);
    }
  }

  function Min(a: int, b: int): int { if a <= b then a else b }
  function Max(a: int, b: int): int { if a >= b then a else b }
  function Abs(a: int): nat { if a < 0 then -a else a }

  /** `max(xs)` of a non-empty list: the greatest element. */
  function MaxOf(xs: seq<int>): (m: int)
    requires xs != []
    ensures m in xs && forall i :: 0 <= i < |xs| ==> xs[i] <= m
  {
    if |xs| == 1 then xs[0]
    else
      var m := MaxOf(xs[..|xs| - 1]);
      assert forall i :: 0 <= i < |xs| - 1 ==> xs[..|xs| - 1][i] == xs[i];
      Max(m, xs[|xs| - 1])
  }

  /** `min(xs)` of a non-empty list: the least element. */
  function MinOf(xs: seq<int>): (m: int)
    requires xs != []
    ensures m in xs && forall i :: 0 <= i < |xs| ==> m <= xs[i]
  {
    if |xs| == 1 then xs[0]
    else
      var m := MinOf(xs[..|xs| - 1]);
      assert forall i :: 0 <= i < |xs| - 1 ==> xs[..|xs| - 1][i] == xs[i];
      Min(m, xs[|xs| - 1])
  }

  /** m * k lies strictly between -m and m only for k == 0. */
  lemma MulBound(m: int, k: int)
    requires m > 0 && -m < m * k < m
    ensures k == 0
  {
    if k >= 1 {
      assert m * k == m + m * (k - 1);
      MulNonNeg(m, k - 1);
    }
  }

  lemma MulNonNeg(m: int, k: int)
    requires m > 0 && k >= 0
    ensures m * k >= 0
  {
  }

  /** The remainder of x by m is b whenever x is a multiple of m plus b, with 0 <= b < m. */
  lemma ModUnique(x: int, m: int, a: int, b: int)
    requires m > 0 && x == m * a + b && 0 <= b < m
    ensures x % m == b
  {
    var q := x / m;
    assert x == m * q + x % m;
    assert m * (a - q) == x % m - b;
    MulBound(m, a - q);
  }

  /** Reducing one addend modulo m does not change the sum modulo m. */
  lemma AddMod(a: int, b: int, m: int)
    requires m > 0
    ensures (a + b % m) % m == (a + b) % m
  {
    var q := b / m;
    assert b == m * q + b % m;
    var s := (a + b) % m;
    assert a + b == m * ((a + b) / m) + s;
    ModUnique(a + b % m, m, (a + b) / m - q, s);
  }

  /** True when `suffix` is the tail of s (`str.endswith`). */
  predicate EndsWith(s: string, suffix: string)
  {
    |suffix| <= |s| && s[|s| - |suffix|..] == suffix
  }
}
