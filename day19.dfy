/** Aplenty (aoc23/day19.py): workflows of comparison rules send machine
    parts from workflow to workflow until they are accepted ('A') or
    rejected ('R'); the same rules applied to ranges of ratings split a
    four-dimensional box of candidate parts into accepted pieces. */
module Day19 {
  import opened Common

  /** The four rating categories x, m, a and s. */
  datatype Category = X | M | A | S

  datatype Part = Part(x: nat, m: nat, a: nat, s: nat)

  /** `getattr(part, lv)`. */
  function Rating(p: Part, c: Category): nat
  {
    match c
    case X => p.x
    case M => p.m
    case A => p.a
    case S => p.s
  }

  /** `Part.total`: `sum(self)`. */
  function Total(p: Part): nat
  {
    p.x + p.m + p.a + p.s
  }

  // ---------------------------------------------------------------------
  // Parsing

  /** `<prefix>(\d+)` at the front of text: the number and the text after its
      digits; None when the prefix or the digits are missing. */
  function Field(text: string, prefix: string): (r: Option<(nat, string)>)
    ensures r.Some? ==> |prefix| < |text| && text[..|prefix|] == prefix && |r.value.1| < |text| - |prefix|
  {
    if |prefix| <= |text| && text[..|prefix|] == prefix then
      var k := DigitRunEnd(text, |prefix|);
      if k > |prefix| then Some((DigitsValue(text[|prefix|..k]), text[k..])) else None
    else None
  }

  /** `Part.parse`: `re.match(r'\{x=(\d+),m=(\d+),a=(\d+),s=(\d+)\}', text)`;
      a text that does not match makes `.groups()` fail (None). */
  function ParsePart(text: string): (r: Option<Part>)
    ensures r.Some? ==> |text| >= 17 && text[..3] == "{x="
  {
    match Field(text, "{x=")
    case None => None
    case Some((x, t1)) =>
      match Field(t1, ",m=")
      case None => None
      case Some((m, t2)) =>
        match Field(t2, ",a=")
        case None => None
        case Some((a, t3)) =>
          match Field(t3, ",s=")
          case None => None
          case Some((s, t4)) => if t4 != [] && t4[0] == '}' then Some(Part(x, m, a, s)) else None
  }

  /** The text of a part as the puzzle input writes it, followed by tail. */
  function PartText(p: Part, tail: string): string
  {
    "{x=" + Decimal(p.x) + (",m=" + Decimal(p.m) + (",a=" + Decimal(p.a) + (",s=" + Decimal(p.s) + ("}" + tail))))
  }

  /** A prefix, the decimal text of n and a rest that starts with a non-digit
      give n and that rest. */
  lemma FieldWritten(prefix: string, n: nat, rest: string)
    requires rest != [] && !IsDigit(rest[0])
    ensures Field(prefix + Decimal(n) + rest, prefix) == Some((n, rest))
  {
    var digits := Decimal(n);
    var text := prefix + digits + rest;
    var k := |prefix| + |digits|;
    assert text[..|prefix|] == prefix;
    assert text[|prefix|..k] == digits;
    assert text[k..] == rest;
    DigitRunEndAt(text, |prefix|, k);
  }

  /** Parsing the text of a part, whatever follows it, gives the part back. */
  lemma ParsePartWritten(p: Part, tail: string)
    ensures ParsePart(PartText(p, tail)) == Some(p)
  {
    var t4 := "}" + tail;
    var t3 := ",s=" + Decimal(p.s) + t4;
    var t2 := ",a=" + Decimal(p.a) + t3;
    var t1 := ",m=" + Decimal(p.m) + t2;
    FieldWritten("{x=", p.x, t1);
    FieldWritten(",m=", p.m, t2);
    FieldWritten(",a=", p.a, t3);
    FieldWritten(",s=", p.s, t4);
  }

  // ---------------------------------------------------------------------
  // Ranges of parts

  /** `range(start, stop)` with step 1. */
  datatype Rng = Rng(start: int, stop: int)

  /** `len(range)`: zero when stop is not past start. */
  function Len(r: Rng): nat
  {
    if r.stop > r.start then r.stop - r.start else 0
  }

  predicate InRng(v: int, r: Rng) { r.start <= v < r.stop }

  /** r is empty or lies inside o. */
  predicate SubRng(r: Rng, o: Rng)
  {
    Len(r) == 0 || (o.start <= r.start && r.stop <= o.stop)
  }

  datatype PartRange = PartRange(x: Rng, m: Rng, a: Rng, s: Rng)

  /** `getattr(self, lv)` of a part range. */
  function Axis(pr: PartRange, c: Category): Rng
  {
    match c
    case X => pr.x
    case M => pr.m
    case A => pr.a
    case S => pr.s
  }

  /** `PartRange(**(self._asdict() | {lv: r}))`. */
  function With(pr: PartRange, c: Category, r: Rng): (q: PartRange)
    ensures Axis(q, c) == r && forall d :: d != c ==> Axis(q, d) == Axis(pr, d)
  {
    match c
    case X => pr.(x := r)
    case M => pr.(m := r)
    case A => pr.(a := r)
    case S => pr.(s := r)
  }

  /** Every rating of p lies in its axis of pr. */
  predicate Contains(pr: PartRange, p: Part)
  {
    InRng(p.x, pr.x) && InRng(p.m, pr.m) && InRng(p.a, pr.a) && InRng(p.s, pr.s)
  }

  /** Every axis of pr lies inside the same axis of o. */
  predicate Inside(pr: PartRange, o: PartRange)
  {
    SubRng(pr.x, o.x) && SubRng(pr.m, o.m) && SubRng(pr.a, o.a) && SubRng(pr.s, o.s)
  }

  /** `PartRange.count`: the product of the four lengths. */
  function Count(pr: PartRange): nat
  {
    Len(pr.x) * Len(pr.m) * Len(pr.a) * Len(pr.s)
  }

  /** `PartRange.fresh`: 1..4000 on every axis. */
  function Fresh(): (pr: PartRange)
    ensures forall c :: Axis(pr, c) == Rng(1, 4001)
  {
    PartRange(Rng(1, 4001), Rng(1, 4001), Rng(1, 4001), Rng(1, 4001))
  }

  /** A fresh range holds 4000^4 parts: those rated 1 to 4000 in every category. */
  lemma FreshHolds(p: Part)
    ensures Count(Fresh()) == 256_000_000_000_000
    ensures Contains(Fresh(), p) <==> forall c :: 1 <= Rating(p, c) <= 4000
  {
    assert Rating(p, X) == p.x && Rating(p, M) == p.m && Rating(p, A) == p.a && Rating(p, S) == p.s;
  }

  /** A part range inside another holds no more parts than it. */
  lemma {:induction false} InsideCount(pr: PartRange, o: PartRange)
    requires Inside(pr, o)
    ensures Count(pr) <= Count(o)
  {
    if Count(pr) != 0 {
      assert Len(pr.x) != 0 && Len(pr.m) != 0 && Len(pr.a) != 0 && Len(pr.s) != 0;
      MulMonotone(Len(pr.x), Len(o.x), Len(pr.m), Len(o.m));
      MulMonotone(Len(pr.x) * Len(pr.m), Len(o.x) * Len(o.m), Len(pr.a), Len(o.a));
      MulMonotone(Len(pr.x) * Len(pr.m) * Len(pr.a), Len(o.x) * Len(o.m) * Len(o.a), Len(pr.s), Len(o.s));
    }
  }

  lemma MulMonotone(a: nat, a': nat, b: nat, b': nat)
    requires a <= a' && b <= b'
    ensures a * b <= a' * b'
  {
    assert a * b <= a' * b;
  }

  /** A part in a range inside o is in o. */
  lemma InsideContains(pr: PartRange, o: PartRange, p: Part)
    requires Inside(pr, o)
    ensures Contains(pr, p) ==> Contains(o, p)
  {
  }

  /** Inside is transitive. */
  lemma InsideTrans(p: PartRange, q: PartRange, o: PartRange)
    requires Inside(p, q) && Inside(q, o)
    ensures Inside(p, o)
  {
  }

  // ---------------------------------------------------------------------
  // Clauses

  datatype Op = Lt | Gt

  /** `lv op rv: cs` — a comparison of one rating and the workflow it sends to. */
  datatype Clause = Clause(lv: Category, op: Op, rv: nat, cs: string)

  /** The comparison of a clause holds for p. */
  predicate Holds(c: Clause, p: Part)
  {
    match c.op
    case Lt => Rating(p, c.lv) < c.rv
    case Gt => Rating(p, c.lv) > c.rv
  }

  /** `Clause.evaluate` yields a truthy string: the comparison holds and the
      consequence is non-empty. */
  predicate Fires(c: Clause, p: Part)
  {
    Holds(c, p) && c.cs != []
  }

  /** `PartRange.split` as written: the part of the range the clause sends on
      (None when the first branch of either operator is taken) and the part
      left for the next clause. */
  function Split(pr: PartRange, c: Clause): (r: (Option<PartRange>, PartRange))
  {
    var rng := Axis(pr, c.lv);
    match c.op
    case Lt =>
      if rng.stop <= c.rv then (None, pr)
      else if rng.start < c.rv <= rng.stop then (Some(With(pr, c.lv, Rng(rng.start, c.rv))), With(pr, c.lv, Rng(c.rv, rng.stop)))
      else (Some(pr), pr)
    case Gt =>
      if c.rv < rng.start then (None, pr)
      else if rng.start <= c.rv < rng.stop - 1 then (Some(With(pr, c.lv, Rng(c.rv + 1, rng.stop))), With(pr, c.lv, Rng(rng.start, c.rv + 1)))
      else (Some(pr), pr)
  }

  /** The threshold falls strictly inside the range: the middle branch of
      `split`, the only one that cuts the range in two. */
  predicate Cuts(pr: PartRange, c: Clause)
  {
    var rng := Axis(pr, c.lv);
    match c.op
    case Lt => rng.stop > c.rv && rng.start < c.rv
    case Gt => rng.start <= c.rv < rng.stop - 1
  }

  /** Whatever branch is taken, both pieces lie inside the range. */
  lemma SplitInside(pr: PartRange, c: Clause)
    ensures var (t, f) := Split(pr, c); (t.Some? ==> Inside(t.value, pr)) && Inside(f, pr)
  {
    var rng := Axis(pr, c.lv);
    SubRngSelf(pr);
    match c.op
    case Lt =>
      if rng.start < c.rv <= rng.stop {
        WithInside(pr, c.lv, Rng(rng.start, c.rv));
        WithInside(pr, c.lv, Rng(c.rv, rng.stop));
      }
    case Gt =>
      if rng.start <= c.rv < rng.stop - 1 {
        WithInside(pr, c.lv, Rng(c.rv + 1, rng.stop));
        WithInside(pr, c.lv, Rng(rng.start, c.rv + 1));
      }
  }

  lemma SubRngSelf(pr: PartRange)
    ensures Inside(pr, pr)
  {
  }

  /** Narrowing one axis within its range stays inside the range. */
  lemma WithInside(pr: PartRange, c: Category, r: Rng)
    requires Axis(pr, c).start <= r.start && r.stop <= Axis(pr, c).stop
    ensures Inside(With(pr, c, r), pr)
  {
    match c
    case X =>
    case M =>
    case A =>
    case S =>
  }

  /** A cutting split sends on exactly the parts of the range the clause
      holds for and keeps exactly the others. */
  lemma SplitSeparates(pr: PartRange, c: Clause, p: Part)
    requires Cuts(pr, c)
    ensures var (t, f) := Split(pr, c);
            t.Some? && (Contains(t.value, p) <==> Contains(pr, p) && Holds(c, p))
            && (Contains(f, p) <==> Contains(pr, p) && !Holds(c, p))
  {
    var (t, f) := Split(pr, c);
    assert Rating(p, X) == p.x && Rating(p, M) == p.m && Rating(p, A) == p.a && Rating(p, S) == p.s;
    assert forall d :: d != c.lv ==> Axis(t.value, d) == Axis(pr, d) && Axis(f, d) == Axis(pr, d);
  }

  /** The product of the lengths of the three axes other than c. */
  function Others(pr: PartRange, c: Category): nat
  {
    match c
    case X => Len(pr.m) * Len(pr.a) * Len(pr.s)
    case M => Len(pr.x) * Len(pr.a) * Len(pr.s)
    case A => Len(pr.x) * Len(pr.m) * Len(pr.s)
    case S => Len(pr.x) * Len(pr.m) * Len(pr.a)
  }

  /** The count is the length of one axis times the product of the others. */
  lemma CountAxis(pr: PartRange, c: Category)
    ensures Count(pr) == Len(Axis(pr, c)) * Others(pr, c)
  {
    var x, m, a, s := Len(pr.x), Len(pr.m), Len(pr.a), Len(pr.s);
    match c {
      case X =>
        MulAssoc(x, m, a);
        MulAssoc(x, m * a, s);
      case M =>
        MulComm(x, m);
        MulAssoc(m, x, a);
        MulAssoc(m, x * a, s);
      case A =>
        MulComm(x * m, a);
        MulAssoc(a, x * m, s);
      case S =>
        MulComm(x * m * a, s);
    }
  }

  lemma MulAssoc(a: nat, b: nat, c: nat)
    ensures a * b * c == a * (b * c)
  {
  }

  lemma MulComm(a: nat, b: nat)
    ensures a * b == b * a
  {
  }

  /** Replacing one axis leaves the product of the others. */
  lemma OthersWith(pr: PartRange, c: Category, r: Rng)
    ensures Others(With(pr, c, r), c) == Others(pr, c)
  {
  }

  lemma Distribute(a: nat, b: nat, o: nat)
    ensures a * o + b * o == (a + b) * o
  {
  }

  /** A cutting split loses no part and counts none twice. */
  lemma SplitCounts(pr: PartRange, c: Clause)
    requires Cuts(pr, c)
    ensures var (t, f) := Split(pr, c); t.Some? && Count(t.value) + Count(f) == Count(pr)
  {
    var (t, f) := Split(pr, c);
    var rng := Axis(pr, c.lv);
    var (lo, hi) := if c.op == Lt then (Rng(rng.start, c.rv), Rng(c.rv, rng.stop))
                    else (Rng(c.rv + 1, rng.stop), Rng(rng.start, c.rv + 1));
    assert t.value == With(pr, c.lv, lo) && f == With(pr, c.lv, hi);
    assert Len(lo) + Len(hi) == Len(rng);
    CountAxis(pr, c.lv);
    CountAxis(t.value, c.lv);
    CountAxis(f, c.lv);
    OthersWith(pr, c.lv, lo);
    OthersWith(pr, c.lv, hi);
    Distribute(Len(lo), Len(hi), Others(pr, c.lv));
  }

  /** The first branch as written: a range wholly on the passing side of the
      comparison is sent on as None and kept whole for the next clause. */
  lemma SplitAllPass(pr: PartRange, c: Clause, p: Part)
    requires var rng := Axis(pr, c.lv); if c.op == Lt then rng.stop <= c.rv else c.rv < rng.start
    ensures Split(pr, c) == (None, pr)
    ensures Contains(pr, p) ==> Holds(c, p)
  {
    assert Rating(p, X) == p.x && Rating(p, M) == p.m && Rating(p, A) == p.a && Rating(p, S) == p.s;
  }

  /** The last branch as written: a range with no part on the passing side
      is both sent on and kept. */
  lemma SplitNonePass(pr: PartRange, c: Clause, p: Part)
    requires var rng := Axis(pr, c.lv);
             if c.op == Lt then c.rv < rng.stop && c.rv <= rng.start else rng.start <= c.rv && rng.stop - 1 <= c.rv
    ensures Split(pr, c) == (Some(pr), pr)
    ensures Contains(pr, p) ==> !Holds(c, p)
  {
    assert Rating(p, X) == p.x && Rating(p, M) == p.m && Rating(p, A) == p.a && Rating(p, S) == p.s;
  }

  predicate IsCategoryLetter(ch: char) { ch == 'x' || ch == 'm' || ch == 'a' || ch == 's' }

  function CategoryOf(ch: char): Category
    requires IsCategoryLetter(ch)
  {
    match ch
    case 'x' => X
    case 'm' => M
    case 'a' => A
    case 's' => S
  }

  /** `Clause.parse`: `re.match(r'([xmas])([><])(\d+):(\w+)', text)`; None
      when the text does not match. */
  function ParseClause(text: string): (r: Option<Clause>)
    ensures r.Some? ==> r.value.cs != [] && forall j :: 0 <= j < |r.value.cs| ==> IsWordChar(r.value.cs[j])
  {
    if |text| >= 2 && IsCategoryLetter(text[0]) && (text[1] == '<' || text[1] == '>') then
      var k := DigitRunEnd(text, 2);
      if k > 2 && k < |text| && text[k] == ':' then
        var e := WordRunEnd(text, k + 1);
        if e > k + 1 then
          Some(Clause(CategoryOf(text[0]), if text[1] == '<' then Lt else Gt, DigitsValue(text[2..k]), text[k + 1..e]))
        else None
      else None
    else None
  }

  // ---------------------------------------------------------------------
  // Workflows

  datatype Workflow = Workflow(name: string, clauses: seq<Clause>, fallback: string)

  /** The last index of c in s before `end`, if any. */
  function LastIndexOf(s: string, c: char, end: nat): (r: Option<nat>)
    requires end <= |s|
    ensures r.Some? ==> r.value < end && s[r.value] == c
    ensures r.Some? ==> forall j :: r.value < j < end ==> s[j] != c
    ensures r.None? ==> forall j :: 0 <= j < end ==> s[j] != c
  {
    if end == 0 then None else if s[end - 1] == c then Some(end - 1) else LastIndexOf(s, c, end - 1)
  }

  /** Each text parsed as a clause; None if any fails. */
  function ParseClauses(texts: seq<string>): (r: Option<seq<Clause>>)
    ensures r.Some? ==> |r.value| == |texts|
    ensures r.Some? ==> forall i :: 0 <= i < |texts| ==> Some(r.value[i]) == ParseClause(texts[i])
  {
    if texts == [] then Some([])
    else
      match ParseClause(texts[0])
      case None => None
      case Some(c) =>
        match ParseClauses(texts[1..])
        case None => None
        case Some(cs) => Some([c] + cs)
  }

  /** `Workflow.__init__`: `re.match(r'(\w+)\{(.*)\}', text.strip())` takes
      the name and everything up to the last '}'; the comma-separated items
      are clauses except the last, which is the fallback. */
  function ParseWorkflow(text: string): (r: Option<Workflow>)
    ensures r.Some? ==> r.value.name != [] && forall i :: 0 <= i < |r.value.clauses| ==> r.value.clauses[i].cs != []
  {
    var t := Strip(text);
    var k := WordRunEnd(t, 0);
    if k > 0 && k < |t| && t[k] == '{' then
      match LastIndexOf(t, '}', |t|)
      case None => None
      case Some(j) =>
        if j <= k then None
        else
          var items := Common.Split(t[k + 1..j], ',');
          match ParseClauses(items[..|items| - 1])
          case None => None
          case Some(cs) => Some(Workflow(t[..k], cs, items[|items| - 1]))
    else None
  }

  /** The letter a category is written with. */
  function CategoryLetter(c: Category): (ch: char)
    ensures IsCategoryLetter(ch) && CategoryOf(ch) == c
  {
    match c
    case X => 'x'
    case M => 'm'
    case A => 'a'
    case S => 's'
  }

  /** A name of `\w` characters, as a consequence or a workflow name. */
  predicate IsWordName(n: string)
  {
    n != [] && forall j :: 0 <= j < |n| ==> IsWordChar(n[j])
  }

  /** A clause as a workflow writes it: `a<2006:qkq`. */
  function ClauseText(c: Clause): string
  {
    [CategoryLetter(c.lv), if c.op == Lt then '<' else '>'] + Decimal(c.rv) + ":" + c.cs
  }

  /** A written clause with a word consequence reads back as that clause:
      the letter, the sign, the digits and the consequence. */
  lemma ParseClauseWritten(c: Clause)
    requires IsWordName(c.cs)
    ensures ParseClause(ClauseText(c)) == Some(c)
  {
    ClauseAt(ClauseText(c), CategoryLetter(c.lv), if c.op == Lt then '<' else '>', Decimal(c.rv), c.cs);
  }

  lemma ClauseAt(text: string, l: char, o: char, digits: string, cs: string)
    requires text == [l, o] + digits + ":" + cs
    requires IsCategoryLetter(l) && (o == '<' || o == '>') && digits != [] && AllDigits(digits) && IsWordName(cs)
    ensures ParseClause(text) == Some(Clause(CategoryOf(l), if o == '<' then Lt else Gt, DigitsValue(digits), cs))
  {
    var k := 2 + |digits|;
    assert text[2..k] == digits;
    assert text[k] == ':';
    DigitRunEndAt(text, 2, k);
    assert text[0] == l && text[1] == o;
    assert text[k + 1..|text|] == cs;
    WordRunEndTo(text, k + 1);
  }

  /** A word run that reaches the end of the text ends there. */
  lemma {:induction false} WordRunEndTo(s: string, i: nat)
    requires i <= |s| && forall j :: i <= j < |s| ==> IsWordChar(s[j])
    ensures WordRunEnd(s, i) == |s|
    decreases |s| - i
  {
    if i < |s| {
      WordRunEndTo(s, i + 1);
    }
  }

  function ClauseTexts(cs: seq<Clause>): (ts: seq<string>)
    ensures |ts| == |cs| && forall i :: 0 <= i < |cs| ==> ts[i] == ClauseText(cs[i])
  {
    seq(|cs|, i requires 0 <= i < |cs| => ClauseText(cs[i]))
  }

  /** Written clauses are read back as exactly those clauses, in order. */
  lemma {:induction false} ParseClausesWritten(cs: seq<Clause>)
    requires forall i :: 0 <= i < |cs| ==> IsWordName(cs[i].cs)
    ensures ParseClauses(ClauseTexts(cs)) == Some(cs)
  {
    if cs != [] {
      ParseClauseWritten(cs[0]);
      ParseClausesWritten(cs[1..]);
      assert ClauseTexts(cs)[1..] == ClauseTexts(cs[1..]);
      assert [cs[0]] + cs[1..] == cs;
    }
  }

  /** A workflow as the puzzle writes it: `px{a<2006:qkq,m>2090:A,rfg}`. */
  function WorkflowText(w: Workflow): string
  {
    w.name + "{" + Common.Join(ClauseTexts(w.clauses) + [w.fallback], ',') + "}"
  }

  /** A written workflow reads back as itself: the name before '{', the
      clauses from the comma items before the last, the fallback from the
      last item. */
  lemma ParseWorkflowWritten(w: Workflow)
    requires IsWordName(w.name) && ',' !in w.fallback
    requires forall i :: 0 <= i < |w.clauses| ==> IsWordName(w.clauses[i].cs)
    ensures ParseWorkflow(WorkflowText(w)) == Some(w)
  {
    var items := ClauseTexts(w.clauses) + [w.fallback];
    ItemsSplit(w.clauses, w.fallback);
    ParseClausesWritten(w.clauses);
    assert items[..|items| - 1] == ClauseTexts(w.clauses);
    WorkflowAt(WorkflowText(w), w.name, Common.Join(items, ','));
  }

  /** The comma items of a written workflow split back into the clause texts and the fallback. */
  lemma ItemsSplit(cs: seq<Clause>, fallback: string)
    requires ',' !in fallback
    requires forall i :: 0 <= i < |cs| ==> IsWordName(cs[i].cs)
    ensures Common.Split(Common.Join(ClauseTexts(cs) + [fallback], ','), ',') == ClauseTexts(cs) + [fallback]
  {
    var items := ClauseTexts(cs) + [fallback];
    forall i | 0 <= i < |items|
      ensures ',' !in items[i]
    {
      if i < |cs| {
        ClauseTextAvoids(cs[i]);
      }
    }
    SplitJoin(items, ',');
  }

  lemma ClauseTextAvoids(c: Clause)
    requires IsWordName(c.cs)
    ensures ',' !in ClauseText(c)
  {
    var d := Decimal(c.rv);
    assert forall j :: 0 <= j < |d| ==> IsDigit(d[j]);
    assert forall j :: 0 <= j < |c.cs| ==> IsWordChar(c.cs[j]);
  }

  lemma WorkflowAt(text: string, name: string, body: string)
    requires text == name + "{" + body + "}" && IsWordName(name)
    ensures Strip(text) == text
    ensures WordRunEnd(text, 0) == |name| && text[|name|] == '{'
    ensures LastIndexOf(text, '}', |text|) == Some(|text| - 1)
    ensures text[..|name|] == name && text[|name| + 1..|text| - 1] == body
  {
    assert text[0] == name[0];
    StripKeeps(text);
    assert text[|name|] == '{';
    WordRunEndAt(text, 0, |name|);
  }

  /** `Workflow.evaluate` over the clauses from the front: the consequence of
      the first clause that fires, or the fallback. */
  function EvaluateClauses(clauses: seq<Clause>, fallback: string, p: Part): string
  {
    if clauses == [] then fallback
    else if Fires(clauses[0], p) then clauses[0].cs
    else EvaluateClauses(clauses[1..], fallback, p)
  }

  function WorkflowEvaluate(w: Workflow, p: Part): string
  {
    EvaluateClauses(w.clauses, w.fallback, p)
  }

  /** The first clause that fires decides; when none fires the fallback does. */
  lemma EvaluateClausesFirst(clauses: seq<Clause>, fallback: string, p: Part)
    ensures (forall i :: 0 <= i < |clauses| ==> !Fires(clauses[i], p)) ==> EvaluateClauses(clauses, fallback, p) == fallback
    ensures forall i :: 0 <= i < |clauses| && Fires(clauses[i], p) && (forall j :: 0 <= j < i ==> !Fires(clauses[j], p))
                    ==> EvaluateClauses(clauses, fallback, p) == clauses[i].cs
  {
    EvaluateClausesNone(clauses, fallback, p);
    forall i | 0 <= i < |clauses| && Fires(clauses[i], p) && (forall j :: 0 <= j < i ==> !Fires(clauses[j], p))
      ensures EvaluateClauses(clauses, fallback, p) == clauses[i].cs
    {
      EvaluateClausesAt(clauses, fallback, p, i);
    }
  }

  lemma {:induction false} EvaluateClausesNone(clauses: seq<Clause>, fallback: string, p: Part)
    ensures (forall i :: 0 <= i < |clauses| ==> !Fires(clauses[i], p)) ==> EvaluateClauses(clauses, fallback, p) == fallback
  {
    if clauses != [] && forall i :: 0 <= i < |clauses| ==> !Fires(clauses[i], p) {
      assert !Fires(clauses[0], p);
      assert forall i :: 0 <= i < |clauses| - 1 ==> clauses[1..][i] == clauses[i + 1];
      EvaluateClausesNone(clauses[1..], fallback, p);
    }
  }

  lemma {:induction false} EvaluateClausesAt(clauses: seq<Clause>, fallback: string, p: Part, i: nat)
    requires i < |clauses| && Fires(clauses[i], p) && forall j :: 0 <= j < i ==> !Fires(clauses[j], p)
    ensures EvaluateClauses(clauses, fallback, p) == clauses[i].cs
  {
    if i > 0 {
      assert !Fires(clauses[0], p);
      var rest := clauses[1..];
      assert rest[i - 1] == clauses[i];
      assert forall j :: 0 <= j < i - 1 ==> rest[j] == clauses[j + 1];
      EvaluateClausesAt(rest, fallback, p, i - 1);
    }
  }

  /** `Workflow.analyse` from a given clause on: the (range, target) pairs
      that clause and the later ones send on, then the rest with the fallback. */
  function AnalyseClauses(clauses: seq<Clause>, pr: PartRange, fallback: string): (r: seq<(PartRange, string)>)
    ensures |r| >= 1 && r[|r| - 1].1 == fallback
  {
    if clauses == [] then [(pr, fallback)]
    else
      var (t, f) := Split(pr, clauses[0]);
      (if t.Some? then [(t.value, clauses[0].cs)] else []) + AnalyseClauses(clauses[1..], f, fallback)
  }

  /** One clause of `analyse`: the piece it sends on, then the rest. */
  lemma AnalyseStep(clauses: seq<Clause>, i: nat, pr: PartRange, fallback: string)
    requires i < |clauses|
    ensures var (t, f) := Split(pr, clauses[i]);
            AnalyseClauses(clauses[i..], pr, fallback)
              == (if t.Some? then [(t.value, clauses[i].cs)] else []) + AnalyseClauses(clauses[i + 1..], f, fallback)
  {
    assert clauses[i..][1..] == clauses[i + 1..];
  }

  /** The pieces gathered so far followed by those of the remaining clauses
      do not change as one more clause is taken. */
  lemma AnalyseAccumulate(clauses: seq<Clause>, i: nat, pr: PartRange, fallback: string,
                          acc: seq<(PartRange, string)>)
    requires i < |clauses|
    ensures var (t, f) := Split(pr, clauses[i]);
            acc + AnalyseClauses(clauses[i..], pr, fallback)
              == (if t.Some? then acc + [(t.value, clauses[i].cs)] else acc) + AnalyseClauses(clauses[i + 1..], f, fallback)
  {
    AnalyseStep(clauses, i, pr, fallback);
    var (t, f) := Split(pr, clauses[i]);
    var rest := AnalyseClauses(clauses[i + 1..], f, fallback);
    if t.Some? {
      assert acc + ([(t.value, clauses[i].cs)] + rest) == acc + [(t.value, clauses[i].cs)] + rest;
    } else {
      assert [] + rest == rest;
    }
  }

  /** Every piece lies inside the analysed range. */
  lemma {:induction false} AnalyseInside(clauses: seq<Clause>, pr: PartRange, fallback: string, i: nat)
    requires i < |AnalyseClauses(clauses, pr, fallback)|
    ensures Inside(AnalyseClauses(clauses, pr, fallback)[i].0, pr)
  {
    if clauses != [] {
      var (t, f) := Split(pr, clauses[0]);
      SplitInside(pr, clauses[0]);
      var head: seq<(PartRange, string)> := if t.Some? then [(t.value, clauses[0].cs)] else [];
      if i >= |head| {
        AnalyseInside(clauses[1..], f, fallback, i - |head|);
        InsideTrans(AnalyseClauses(clauses[1..], f, fallback)[i - |head|].0, f, pr);
      }
    }
  }

  /** Every clause cuts the range it meets: the middle branch of `split` is
      taken all the way down. */
  predicate AllCut(clauses: seq<Clause>, pr: PartRange)
    decreases |clauses|
  {
    clauses == [] || (Cuts(pr, clauses[0]) && AllCut(clauses[1..], Split(pr, clauses[0]).1))
  }

  function CountPieces(rs: seq<(PartRange, string)>): nat
  {
    if rs == [] then 0 else CountPieces(rs[..|rs| - 1]) + Count(rs[|rs| - 1].0)
  }

  lemma {:induction false} CountPiecesAppend(a: seq<(PartRange, string)>, b: seq<(PartRange, string)>)
    ensures CountPieces(a + b) == CountPieces(a) + CountPieces(b)
    decreases |b|
  {
    if b == [] {
      assert a + b == a;
    } else {
      assert (a + b)[..|a + b| - 1] == a + b[..|b| - 1];
      CountPiecesAppend(a, b[..|b| - 1]);
    }
  }

  /** When every clause cuts, the pieces hold exactly as many parts as the range. */
  lemma {:induction false} AnalyseCounts(clauses: seq<Clause>, pr: PartRange, fallback: string)
    requires AllCut(clauses, pr)
    ensures CountPieces(AnalyseClauses(clauses, pr, fallback)) == Count(pr)
  {
    if clauses == [] {
      assert CountPieces([(pr, fallback)]) == CountPieces([]) + Count(pr);
    } else {
      var (t, f) := Split(pr, clauses[0]);
      SplitCounts(pr, clauses[0]);
      AnalyseCounts(clauses[1..], f, fallback);
      var head := [(t.value, clauses[0].cs)];
      assert CountPieces(head) == CountPieces([]) + Count(t.value);
      CountPiecesAppend(head, AnalyseClauses(clauses[1..], f, fallback));
    }
  }

  /** Piece i is the only one of rs that holds p. */
  predicate OnlyPiece(rs: seq<(PartRange, string)>, i: int, p: Part)
  {
    0 <= i < |rs| && Contains(rs[i].0, p) && forall j :: 0 <= j < |rs| && j != i ==> !Contains(rs[j].0, p)
  }

  /** When every clause cuts, a part of the range lies in exactly one piece,
      and that piece is labelled with the workflow `evaluate` sends it to. */
  lemma {:induction false} AnalyseAgrees(clauses: seq<Clause>, pr: PartRange, fallback: string, p: Part)
    requires AllCut(clauses, pr) && Contains(pr, p)
    requires forall i :: 0 <= i < |clauses| ==> clauses[i].cs != []
    ensures exists i :: OnlyPiece(AnalyseClauses(clauses, pr, fallback), i, p)
                        && AnalyseClauses(clauses, pr, fallback)[i].1 == EvaluateClauses(clauses, fallback, p)
  {
    var rs := AnalyseClauses(clauses, pr, fallback);
    if clauses == [] {
      assert OnlyPiece(rs, 0, p);
    } else {
      var c := clauses[0];
      var (t, f) := Split(pr, c);
      SplitSeparates(pr, c, p);
      var rest := AnalyseClauses(clauses[1..], f, fallback);
      assert rs == [(t.value, c.cs)] + rest;
      if Holds(c, p) {
        assert Fires(c, p) && EvaluateClauses(clauses, fallback, p) == c.cs;
        forall j | 0 < j < |rs| ensures !Contains(rs[j].0, p) {
          assert rs[j] == rest[j - 1];
          AnalyseInside(clauses[1..], f, fallback, j - 1);
          InsideContains(rest[j - 1].0, f, p);
        }
        assert rs[0] == (t.value, c.cs);
        assert OnlyPiece(rs, 0, p) && rs[0].1 == EvaluateClauses(clauses, fallback, p);
      } else {
        assert forall j :: 1 <= j < |clauses| ==> clauses[1..][j - 1] == clauses[j];
        AnalyseAgrees(clauses[1..], f, fallback, p);
        var i :| OnlyPiece(rest, i, p) && rest[i].1 == EvaluateClauses(clauses[1..], fallback, p);
        assert rs[i + 1] == rest[i];
        assert !Contains(rs[0].0, p);
        forall j | 0 <= j < |rs| && j != i + 1 ensures !Contains(rs[j].0, p) {
          if j > 0 {
            assert rs[j] == rest[j - 1];
          }
        }
        assert OnlyPiece(rs, i + 1, p) && rs[i + 1].1 == EvaluateClauses(clauses, fallback, p);
      }
    }
  }

  /** `Workflow.analyse`: each clause splits the remaining range; a piece
      sent on is recorded with the clause's target, and what is left at the
      end goes to the fallback. */
  method AnalyseWorkflow(w: Workflow, pr: PartRange) returns (result: seq<(PartRange, string)>)
    ensures result == AnalyseClauses(w.clauses, pr, w.fallback)
  {
    result := [];
    var partRange := pr;
    for i := 0 to |w.clauses|
      invariant result + AnalyseClauses(w.clauses[i..], partRange, w.fallback) == AnalyseClauses(w.clauses, pr, w.fallback)
    {
      var c := w.clauses[i];
      AnalyseAccumulate(w.clauses, i, partRange, w.fallback, result);
      var (t, f) := Split(partRange, c);
      if t.Some? {
        result := result + [(t.value, c.cs)];
      }
      partRange := f;
    }
    assert w.clauses[|w.clauses|..] == [];
    result := result + [(partRange, w.fallback)];
  }

  // ---------------------------------------------------------------------
  // Programs

  /** A computation that may fail: a result, a malformed input, a workflow
      name with no workflow (KeyError), or a walk that did not end within
      the step bound (the source loops for ever on a cycle). */
  datatype Outcome<T> = Done(value: T) | Malformed | Missing(name: string) | Unfinished

  /** `{w.name: w for w in workflows}`: a later workflow with the same name
      replaces an earlier one. */
  function ProgramOf(ws: seq<Workflow>): (prog: map<string, Workflow>)
    ensures forall n :: n in prog ==> prog[n].name == n
  {
    if ws == [] then map[]
    else
      var w := ws[|ws| - 1];
      ProgramOf(ws[..|ws| - 1])[w.name := w]
  }

  /** A name maps to the last workflow that carries it, and only names of
      workflows are keys. */
  lemma {:induction false} ProgramOfLast(ws: seq<Workflow>, n: string)
    ensures n in ProgramOf(ws) <==> exists i :: 0 <= i < |ws| && ws[i].name == n
    ensures forall i :: 0 <= i < |ws| && ws[i].name == n && (forall j :: i < j < |ws| ==> ws[j].name != n)
                    ==> n in ProgramOf(ws) && ProgramOf(ws)[n] == ws[i]
  {
    if ws != [] {
      var init := ws[..|ws| - 1];
      ProgramOfLast(init, n);
      assert forall i :: 0 <= i < |init| ==> init[i] == ws[i];
    }
  }

  predicate IsVerdict(name: string) { name == "A" || name == "R" }

  /** `Program.evaluate` from workflow `current`, with at most `fuel` workflows run. */
  function RunFrom(prog: map<string, Workflow>, p: Part, current: string, fuel: nat): (r: Outcome<string>)
    ensures r.Done? ==> IsVerdict(r.value)
    ensures !r.Malformed?
    decreases fuel
  {
    if fuel == 0 then Unfinished
    else if current !in prog then Missing(current)
    else
      var next := WorkflowEvaluate(prog[current], p);
      if IsVerdict(next) then Done(next) else RunFrom(prog, p, next, fuel - 1)
  }

  /** More fuel does not change a walk that ended. */
  lemma {:induction false} RunFromMoreFuel(prog: map<string, Workflow>, p: Part, current: string, fuel: nat, fuel': nat)
    requires fuel <= fuel' && !RunFrom(prog, p, current, fuel).Unfinished?
    ensures RunFrom(prog, p, current, fuel') == RunFrom(prog, p, current, fuel)
    decreases fuel
  {
    if current in prog {
      var next := WorkflowEvaluate(prog[current], p);
      if !IsVerdict(next) {
        RunFromMoreFuel(prog, p, next, fuel - 1, fuel' - 1);
      }
    }
  }

  /** `Program.evaluate`: starting at 'in', run workflows until one names
      'A' or 'R'. */
  method Evaluate(prog: map<string, Workflow>, p: Part, fuel: nat) returns (r: Outcome<string>)
    ensures r == RunFrom(prog, p, "in", fuel)
    ensures r.Done? ==> IsVerdict(r.value)
  {
    var current := "in";
    var left := fuel;
    while left > 0
      invariant RunFrom(prog, p, current, left) == RunFrom(prog, p, "in", fuel)
    {
      if current !in prog {
        return Missing(current);
      }
      current := WorkflowEvaluate(prog[current], p);
      if IsVerdict(current) {
        return Done(current);
      }
      left := left - 1;
    }
    return Unfinished;
  }

  /** `Program.analyse` from a given worklist and accepted list, with at most
      `fuel` worlds taken from the front of the worklist. */
  function AnalyseWorlds(prog: map<string, Workflow>, worlds: seq<(PartRange, string)>, accept: seq<PartRange>, fuel: nat)
    : (r: Outcome<seq<PartRange>>)
    ensures !r.Malformed?
    decreases fuel
  {
    if worlds == [] then Done(accept)
    else if fuel == 0 then Unfinished
    else
      var (c, wf) := worlds[0];
      if wf == "A" then AnalyseWorlds(prog, worlds[1..], accept + [c], fuel - 1)
      else if wf == "R" then AnalyseWorlds(prog, worlds[1..], accept, fuel - 1)
      else if wf !in prog then Missing(wf)
      else
        var w := prog[wf];
        AnalyseWorlds(prog, worlds[1..] + AnalyseClauses(w.clauses, c, w.fallback), accept, fuel - 1)
  }

  predicate AllInside(rs: seq<PartRange>, o: PartRange)
  {
    forall i :: 0 <= i < |rs| ==> Inside(rs[i], o)
  }

  predicate WorldsInside(worlds: seq<(PartRange, string)>, o: PartRange)
  {
    forall i :: 0 <= i < |worlds| ==> Inside(worlds[i].0, o)
  }

  /** Ranges that start inside o stay inside o, so every accepted range does. */
  lemma {:induction false} AnalyseWorldsInside(prog: map<string, Workflow>, worlds: seq<(PartRange, string)>,
                                               accept: seq<PartRange>, fuel: nat, o: PartRange)
    requires WorldsInside(worlds, o) && AllInside(accept, o)
    ensures var r := AnalyseWorlds(prog, worlds, accept, fuel); r.Done? ==> AllInside(r.value, o)
    decreases fuel
  {
    if worlds != [] && fuel > 0 {
      var (c, wf) := worlds[0];
      assert Inside(c, o);
      assert WorldsInside(worlds[1..], o) by {
        forall i | 0 <= i < |worlds| - 1 ensures Inside(worlds[1..][i].0, o) {
          assert worlds[1..][i] == worlds[i + 1];
        }
      }
      if wf == "A" {
        AnalyseWorldsInside(prog, worlds[1..], accept + [c], fuel - 1, o);
      } else if wf == "R" {
        AnalyseWorldsInside(prog, worlds[1..], accept, fuel - 1, o);
      } else if wf in prog {
        var w := prog[wf];
        var pieces := AnalyseClauses(w.clauses, c, w.fallback);
        var next := worlds[1..] + pieces;
        forall i | 0 <= i < |next| ensures Inside(next[i].0, o) {
          if i >= |worlds| - 1 {
            AnalyseInside(w.clauses, c, w.fallback, i - (|worlds| - 1));
            InsideTrans(pieces[i - (|worlds| - 1)].0, c, o);
          }
        }
        AnalyseWorldsInside(prog, next, accept, fuel - 1, o);
      }
    }
  }

  /** `Program.analyse`: a FIFO worklist of (range, workflow) worlds that
      starts with a fresh range at 'in'; ranges reaching 'A' are collected
      and ranges reaching 'R' dropped. */
  method Analyse(prog: map<string, Workflow>, fuel: nat) returns (r: Outcome<seq<PartRange>>)
    ensures r == AnalyseWorlds(prog, [(Fresh(), "in")], [], fuel)
  {
    var worlds := [(Fresh(), "in")];
    var accept := [];
    var left := fuel;
    while worlds != []
      invariant AnalyseWorlds(prog, worlds, accept, left) == AnalyseWorlds(prog, [(Fresh(), "in")], [], fuel)
      decreases left
    {
      if left == 0 {
        return Unfinished;
      }
      var (c, wf) := worlds[0];
      worlds := worlds[1..];
      if wf == "A" {
        accept := accept + [c];
      } else if wf != "R" {
        if wf !in prog {
          return Missing(wf);
        }
        var pieces := AnalyseWorkflow(prog[wf], c);
        worlds := worlds + pieces;
      }
      left := left - 1;
    }
    return Done(accept);
  }

  /** Every range `analyse` accepts lies inside the fresh range. */
  lemma AnalyseFreshInside(prog: map<string, Workflow>, fuel: nat)
    ensures var r := AnalyseWorlds(prog, [(Fresh(), "in")], [], fuel); r.Done? ==> AllInside(r.value, Fresh())
  {
    AnalyseWorldsInside(prog, [(Fresh(), "in")], [], fuel, Fresh());
  }

  // ---------------------------------------------------------------------
  // Puzzle

  /** The index of the first line that is blank once stripped, or |lines|. */
  function FirstBlank(lines: seq<string>): (k: nat)
    ensures k <= |lines|
    ensures forall i :: 0 <= i < k ==> Strip(lines[i]) != []
    ensures k < |lines| ==> Strip(lines[k]) == []
  {
    if lines == [] then 0
    else if Strip(lines[0]) == [] then 0
    else 1 + FirstBlank(lines[1..])
  }

  function ParseWorkflows(texts: seq<string>): (r: Option<seq<Workflow>>)
    ensures r.Some? ==> |r.value| == |texts|
  {
    if texts == [] then Some([])
    else
      match ParseWorkflow(Strip(texts[0]))
      case None => None
      case Some(w) =>
        match ParseWorkflows(texts[1..])
        case None => None
        case Some(ws) => Some([w] + ws)
  }

  function ParseParts(texts: seq<string>): (r: Option<seq<Part>>)
    ensures r.Some? ==> |r.value| == |texts|
  {
    if texts == [] then Some([])
    else
      match ParsePart(Strip(texts[0]))
      case None => None
      case Some(p) =>
        match ParseParts(texts[1..])
        case None => None
        case Some(ps) => Some([p] + ps)
  }

  /** `parse_puzzle`: the workflows are the lines before the first blank
      line, which `takewhile` consumes; every later line is a part. */
  function ParsePuzzle(lines: seq<string>): (r: Option<(map<string, Workflow>, seq<Part>)>)
    ensures r.Some? ==> |r.value.1| == |lines| - FirstBlank(lines) - (if FirstBlank(lines) < |lines| then 1 else 0)
  {
    var k := FirstBlank(lines);
    var rest := if k < |lines| then lines[k + 1..] else [];
    match ParseWorkflows(lines[..k])
    case None => None
    case Some(ws) =>
      match ParseParts(rest)
      case None => None
      case Some(ps) => Some((ProgramOf(ws), ps))
  }

  /** The sum of the totals of the accepted parts, part by part from the
      front; the first part whose walk fails decides the outcome. */
  function SumAccepted(prog: map<string, Workflow>, parts: seq<Part>, fuel: nat): (r: Outcome<int>)
    ensures r.Done? ==> r.value >= 0
    ensures !r.Malformed?
  {
    if parts == [] then Done(0)
    else
      var head := RunFrom(prog, parts[0], "in", fuel);
      if head.Missing? then Missing(head.name)
      else if !head.Done? then Unfinished
      else
        var rest := SumAccepted(prog, parts[1..], fuel);
        if rest.Done? then Done(rest.value + (if head.value == "A" then Total(parts[0]) else 0)) else rest
  }

  /** When every walk ends, the sum is that of the totals of the parts that
      end at 'A'. */
  lemma {:induction false} SumAcceptedTotals(prog: map<string, Workflow>, parts: seq<Part>, fuel: nat)
    requires forall i :: 0 <= i < |parts| ==> RunFrom(prog, parts[i], "in", fuel).Done?
    ensures SumAccepted(prog, parts, fuel) == Done(Sum(AcceptedTotals(prog, parts, fuel)))
  {
    if parts != [] {
      assert forall i :: 0 <= i < |parts| - 1 ==> parts[1..][i] == parts[i + 1];
      SumAcceptedTotals(prog, parts[1..], fuel);
      var head := [if RunFrom(prog, parts[0], "in", fuel).value == "A" then Total(parts[0]) else 0];
      assert AcceptedTotals(prog, parts, fuel) == head + AcceptedTotals(prog, parts[1..], fuel);
      SumAppend(head, AcceptedTotals(prog, parts[1..], fuel));
      assert Sum(head) == head[0] by {
        assert head[..0] == [];
      }
    }
  }

  /** The total of each part that ends at 'A', 0 for the others. */
  function AcceptedTotals(prog: map<string, Workflow>, parts: seq<Part>, fuel: nat): (ts: seq<int>)
    requires forall i :: 0 <= i < |parts| ==> RunFrom(prog, parts[i], "in", fuel).Done?
    ensures |ts| == |parts|
  {
    if parts == [] then []
    else
      [if RunFrom(prog, parts[0], "in", fuel).value == "A" then Total(parts[0]) else 0]
        + AcceptedTotals(prog, parts[1..], fuel)
  }

  /** One part of `day19a`: its walk, then the rest. */
  lemma SumAcceptedStep(prog: map<string, Workflow>, parts: seq<Part>, i: nat, fuel: nat, total: int)
    requires i < |parts|
    ensures var head := RunFrom(prog, parts[i], "in", fuel);
            var rest := SumAccepted(prog, parts[i + 1..], fuel);
            Plus(SumAccepted(prog, parts[i..], fuel), total)
              == if head.Missing? then Missing(head.name)
                 else if !head.Done? then Unfinished
                 else Plus(rest, total + (if head.value == "A" then Total(parts[i]) else 0))
  {
    assert parts[i..][1..] == parts[i + 1..];
  }

  /** Adds n to a finished sum and passes a failure on unchanged. */
  function Plus(o: Outcome<int>, n: int): Outcome<int>
  {
    if o.Done? then Done(o.value + n) else o
  }

  /** The generator in `day19a`: each part is walked through the program and
      the totals of those ending at 'A' are added up. */
  method SumAcceptedParts(prog: map<string, Workflow>, parts: seq<Part>, fuel: nat) returns (r: Outcome<int>)
    ensures r == SumAccepted(prog, parts, fuel)
  {
    var total := 0;
    for i := 0 to |parts|
      invariant Plus(SumAccepted(prog, parts[i..], fuel), total) == SumAccepted(prog, parts, fuel)
    {
      SumAcceptedStep(prog, parts, i, fuel, total);
      var v := Evaluate(prog, parts[i], fuel);
      if v.Missing? {
        return Missing(v.name);
      } else if !v.Done? {
        return Unfinished;
      }
      if v.value == "A" {
        total := total + Total(parts[i]);
      }
    }
    assert parts[|parts|..] == [];
    return Done(total);
  }

  /** `day19a`: the sum of the totals of the accepted parts; `fuel` bounds
      each part's walk. */
  method Day19A(lines: seq<string>, fuel: nat) returns (r: Outcome<int>)
    ensures ParsePuzzle(lines).None? ==> r == Malformed
    ensures ParsePuzzle(lines).Some? ==> r == SumAccepted(ParsePuzzle(lines).value.0, ParsePuzzle(lines).value.1, fuel)
  {
    var puzzle := ParsePuzzle(lines);
    if puzzle.None? {
      return Malformed;
    }
    r := SumAcceptedParts(puzzle.value.0, puzzle.value.1, fuel);
  }

  /** The counts of a list of part ranges, summed. */
  function CountAll(rs: seq<PartRange>): nat
  {
    if rs == [] then 0 else CountAll(rs[..|rs| - 1]) + Count(rs[|rs| - 1])
  }

  /** `day19b`: the number of parts in the accepted ranges; `fuel` bounds the
      worlds `analyse` takes from its worklist. */
  method Day19B(lines: seq<string>, fuel: nat) returns (r: Outcome<int>)
    ensures ParsePuzzle(lines).None? ==> r == Malformed
    ensures ParsePuzzle(lines).Some? ==>
      match AnalyseWorlds(ParsePuzzle(lines).value.0, [(Fresh(), "in")], [], fuel)
      case Done(accept) => r == Done(CountAll(accept))
      case Missing(n) => r == Missing(n)
      case _ => r == Unfinished
  {
    var puzzle := ParsePuzzle(lines);
    if puzzle.None? {
      return Malformed;
    }
    var accept := Analyse(puzzle.value.0, fuel);
    match accept {
      case Done(rs) =>
        var total := 0;
        for i := 0 to |rs|
          invariant total == CountAll(rs[..i])
        {
          assert rs[..i + 1][..i] == rs[..i];
          total := total + Count(rs[i]);
        }
        assert rs[..|rs|] == rs;
        return Done(total);
      case Missing(n) => return Missing(n);
      case _ => return Unfinished;
    }
  }
}
