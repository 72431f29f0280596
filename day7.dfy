/** Camel Cards (aoc23/day7.py): hands are ranked first by their type (the
    card counts in non-increasing order) and then card by card; the winnings
    are each bid times the hand's rank. */
module Day7 {
  import opened Common

  /** The card orders of part one and part two (`val_map_a`, `val_map_b`). */
  const OrderA: string := "23456789TJQKA"
  const OrderB: string := "J23456789TQKA"

  /** `val_map[c]`: the position of c in the order; None for the KeyError. */
  function CardValue(order: string, c: char): (r: Option<nat>)
    ensures r.Some? <==> c in order
    ensures r.Some? ==> r.value < |order| && order[r.value] == c &&
                        forall j :: 0 <= j < r.value ==> order[j] != c
  {
    if order == [] then None
    else if order[0] == c then Some(0)
    else match CardValue(order[1..], c)
      case None => None
      case Some(k) => Some(k + 1)
  }

  /** J is the weakest card in part two and sits between T and Q in part one. */
  lemma JokerWeakestInB(c: char)
    requires c in OrderB && c != 'J'
    ensures ValueB('J') == 0 < ValueB(c)
  {
    assert OrderB[0] == 'J';
  }

  lemma JokerBetweenTenAndQueenInA()
    ensures CardValue(OrderA, 'T').value < CardValue(OrderA, 'J').value < CardValue(OrderA, 'Q').value
  {
    TenInA();
    JokerInA();
    QueenInA();
  }

  lemma TenInA() ensures CardValue(OrderA, 'T') == Some(8) { ValueAt(OrderA, 8, 'T'); }
  lemma JokerInA() ensures CardValue(OrderA, 'J') == Some(9) { ValueAt(OrderA, 9, 'J'); }
  lemma QueenInA() ensures CardValue(OrderA, 'Q') == Some(10) { ValueAt(OrderA, 10, 'Q'); }

  /** The value of a card is the position of its first occurrence. */
  lemma ValueAt(order: string, k: nat, c: char)
    requires k < |order| && order[k] == c && forall j :: 0 <= j < k ==> order[j] != c
    ensures CardValue(order, c) == Some(k)
  {
  }

  predicate ValidCards(order: string, text: string)
  {
    forall c :: c in text ==> c in order
  }

  /** `val_map_b[c]` for a card of part two. */
  function ValueB(c: char): (v: nat)
    requires c in OrderB
    ensures v < |OrderB| && OrderB[v] == c
  {
    CardValue(OrderB, c).value
  }

  /** `[val_map[c] for c in text]`. */
  function TieBreak(order: string, text: string): (r: seq<int>)
    requires ValidCards(order, text)
    ensures |r| == |text|
    ensures forall i :: 0 <= i < |text| ==> 0 <= r[i] < |order| && order[r[i]] == text[i]
  {
    seq(|text|, i requires 0 <= i < |text| => CardValue(order, text[i]).value)
  }

  /** Different hands have different tie-break values. */
  lemma TieBreakInjective(order: string, a: string, b: string)
    requires ValidCards(order, a) && ValidCards(order, b)
    ensures TieBreak(order, a) == TieBreak(order, b) ==> a == b
  {
    var ta, tb := TieBreak(order, a), TieBreak(order, b);
    if ta == tb {
      assert forall i :: 0 <= i < |a| ==> a[i] == order[ta[i]] == b[i];
    }
  }

  /** The distinct cards of a hand, in order of first appearance (the keys of `Counter`). */
  function Kinds(text: string): (d: seq<char>)
    ensures forall i, j :: 0 <= i < j < |d| ==> d[i] != d[j]
    ensures forall c :: c in d <==> c in text
  {
    if text == [] then []
    else
      var d := Kinds(text[..|text| - 1]);
      assert forall c :: c in text[..|text| - 1] ==> c in text;
      assert forall c :: c in text ==> c in text[..|text| - 1] || c == text[|text| - 1];
      if text[|text| - 1] in d then d else d + [text[|text| - 1]]
  }

  /** `Counter(text).values()`: the count of each distinct card. */
  function Counts(text: string): (r: seq<nat>)
    ensures |r| == |Kinds(text)|
  {
    var d := Kinds(text);
    seq(|d|, i requires 0 <= i < |d| => multiset(text)[d[i]])
  }

  function SumNat(s: seq<nat>): nat
  {
    if s == [] then 0 else s[0] + SumNat(s[1..])
  }

  /** Inserting into a non-increasing sequence. */
  function InsertDesc(x: nat, s: seq<nat>): (r: seq<nat>)
    ensures multiset(r) == multiset(s) + multiset{x}
    ensures SumNat(r) == x + SumNat(s)
    ensures NonIncreasing(s) ==> NonIncreasing(r)
    ensures |r| == |s| + 1
  {
    if s == [] then [x]
    else if x >= s[0] then
      InsertFront(x, s);
      [x] + s
    else
      var t := InsertDesc(x, s[1..]);
      InsertBehind(x, s, t);
      [s[0]] + t
  }

  lemma InsertFront(x: nat, s: seq<nat>)
    requires s != [] && x >= s[0]
    ensures NonIncreasing(s) ==> NonIncreasing([x] + s)
  {
    if NonIncreasing(s) {
      ConsNonIncreasing(x, s);
    }
  }

  /** Inserting behind the head of s keeps the head first. */
  lemma InsertBehind(x: nat, s: seq<nat>, t: seq<nat>)
    requires s != [] && x < s[0]
    requires multiset(t) == multiset(s[1..]) + multiset{x}
    requires SumNat(t) == x + SumNat(s[1..])
    requires NonIncreasing(s[1..]) ==> NonIncreasing(t)
    requires |t| == |s|
    ensures multiset([s[0]] + t) == multiset(s) + multiset{x}
    ensures SumNat([s[0]] + t) == x + SumNat(s)
    ensures NonIncreasing(s) ==> NonIncreasing([s[0]] + t)
  {
    ConsMultiset(s, t, multiset{x});
    ConsSum(s[0], t);
    if NonIncreasing(s) {
      assert NonIncreasing(s[1..]);
      BoundedByHead(x, s, t);
      ConsNonIncreasing(s[0], t);
    }
  }

  lemma ConsMultiset(s: seq<nat>, t: seq<nat>, extra: multiset<nat>)
    requires s != [] && multiset(t) == multiset(s[1..]) + extra
    ensures multiset([s[0]] + t) == multiset(s) + extra
  {
    assert s == [s[0]] + s[1..];
  }

  lemma ConsSum(h: nat, t: seq<nat>)
    ensures SumNat([h] + t) == h + SumNat(t)
  {
    assert ([h] + t)[1..] == t;
  }

  /** What is inserted behind the head of a non-increasing s is at most that head. */
  lemma BoundedByHead(x: nat, s: seq<nat>, t: seq<nat>)
    requires s != [] && x < s[0] && NonIncreasing(s)
    requires multiset(t) == multiset(s[1..]) + multiset{x}
    ensures |t| > 0 ==> t[0] <= s[0]
  {
    if |t| > 0 && t[0] != x {
      assert t[0] in multiset(t);
      assert t[0] in multiset(s[1..]);
      var m :| 0 <= m < |s[1..]| && s[1..][m] == t[0];
      HeadIsMax(s, m + 1);
    }
  }

  lemma {:induction false} HeadIsMax(s: seq<nat>, k: nat)
    requires NonIncreasing(s) && k < |s|
    ensures s[k] <= s[0]
  {
    if k > 0 {
      HeadIsMax(s, k - 1);
    }
  }

  lemma ConsNonIncreasing(h: nat, t: seq<nat>)
    requires NonIncreasing(t) && (|t| > 0 ==> t[0] <= h)
    ensures NonIncreasing([h] + t)
  {
    var r := [h] + t;
    forall i | 0 < i < |r|
      ensures r[i - 1] >= r[i]
    {
      assert r[i] == t[i - 1];
      if i > 1 {
        assert r[i - 1] == t[i - 2];
      }
    }
  }

  /** Each element is at least the one after it. */
  predicate NonIncreasing(s: seq<nat>)
  {
    forall i :: 0 < i < |s| ==> s[i - 1] >= s[i]
  }

  /** `reversed(sorted(values))`. */
  function SortDesc(s: seq<nat>): (r: seq<nat>)
    ensures NonIncreasing(r)
    ensures multiset(r) == multiset(s)
    ensures SumNat(r) == SumNat(s)
  {
    if s == [] then [] else
      assert s == [s[0]] + s[1..];
      InsertDesc(s[0], SortDesc(s[1..]))
  }

  /** `type_key_a`. */
  function TypeKeyA(text: string): (r: seq<nat>)
    ensures NonIncreasing(r)
    ensures multiset(r) == multiset(Counts(text))
  {
    SortDesc(Counts(text))
  }

  /** The counts of the distinct cards add up to the number of cards. */
  lemma TypeKeySum(text: string)
    ensures SumNat(TypeKeyA(text)) == |text|
  {
    var d := Kinds(text);
    CountsSum(text, d);
    assert Counts(text) == seq(|d|, i requires 0 <= i < |d| => multiset(text)[d[i]]);
  }

  /** The sum, over a duplicate-free list d of cards covering the text, of their counts. */
  function SumCountsOver(text: string, d: seq<char>): nat
  {
    if d == [] then 0 else multiset(text)[d[0]] + SumCountsOver(text, d[1..])
  }

  lemma {:induction false} CountsSum(text: string, d: seq<char>)
    requires d == Kinds(text)
    ensures SumNat(seq(|d|, i requires 0 <= i < |d| => multiset(text)[d[i]])) == |text|
  {
    SumOverEqualsSeq(text, d);
    CoveringSum(text, d);
  }

  lemma {:induction false} SumOverEqualsSeq(text: string, d: seq<char>)
    ensures SumNat(seq(|d|, i requires 0 <= i < |d| => multiset(text)[d[i]])) == SumCountsOver(text, d)
  {
    if d != [] {
      var s := seq(|d|, i requires 0 <= i < |d| => multiset(text)[d[i]]);
      var t := seq(|d| - 1, i requires 0 <= i < |d| - 1 => multiset(text)[d[1..][i]]);
      assert s[1..] == t;
      SumOverEqualsSeq(text, d[1..]);
    }
  }

  /** Summing counts over any duplicate-free list that contains every card of
      the text gives the number of cards. */
  lemma {:induction false} CoveringSum(text: string, d: seq<char>)
    requires forall i, j :: 0 <= i < j < |d| ==> d[i] != d[j]
    requires forall c :: c in text ==> c in d
    ensures SumCountsOver(text, d) == |text|
    decreases |text|
  {
    if text == [] {
      ZeroCounts(text, d);
    } else {
      var init, x := text[..|text| - 1], text[|text| - 1];
      assert text == init + [x];
      assert forall c :: c in init ==> c in text;
      CoveringSum(init, d);
      SumCountsSnoc(init, x, d);
    }
  }

  lemma {:induction false} ZeroCounts(text: string, d: seq<char>)
    requires text == []
    ensures SumCountsOver(text, d) == 0
  {
    if d != [] {
      ZeroCounts(text, d[1..]);
    }
  }

  lemma {:induction false} SumCountsSnoc(text: string, x: char, d: seq<char>)
    requires forall i, j :: 0 <= i < j < |d| ==> d[i] != d[j]
    ensures SumCountsOver(text + [x], d) == SumCountsOver(text, d) + (if x in d then 1 else 0)
  {
    if d != [] {
      assert multiset(text + [x]) == multiset(text) + multiset{x};
      SumCountsSnoc(text, x, d[1..]);
      if d[0] == x {
        assert x !in d[1..];
      }
    }
  }

  /** The card that a joker impersonates: among the cards of d, the one with
      the highest count, ties going to the highest part-two value. */
  function BestCard(text: string, d: seq<char>): (b: char)
    requires d != [] && ValidCards(OrderB, d)
    ensures b in d
    ensures forall c :: c in d ==> Count(text, c) <= Count(text, b)
    ensures forall c :: c in d && Count(text, c) == Count(text, b) ==> ValueB(c) <= ValueB(b)
  {
    if |d| == 1 then
      assert forall c :: c in d ==> c == d[0];
      d[0]
    else
      var init := d[..|d| - 1];
      var c := d[|d| - 1];
      assert d == init + [c];
      var b := BestCard(text, init);
      var r := if Count(text, c) > Count(text, b) || (Count(text, c) == Count(text, b) && ValueB(c) > ValueB(b))
        then c else b;
      BestSnoc(text, init, c, b, r);
      r
  }

  /** The choice between the best card of init and one more card c. */
  lemma BestSnoc(text: string, init: seq<char>, c: char, b: char, r: char)
    requires ValidCards(OrderB, init + [c]) && b in init
    requires forall e :: e in init ==> Count(text, e) <= Count(text, b)
    requires forall e :: e in init && Count(text, e) == Count(text, b) ==> ValueB(e) <= ValueB(b)
    requires r == if Count(text, c) > Count(text, b) || (Count(text, c) == Count(text, b) && ValueB(c) > ValueB(b))
      then c else b
    ensures r in init + [c]
    ensures forall e :: e in init + [c] ==> Count(text, e) <= Count(text, r)
    ensures forall e :: e in init + [c] && Count(text, e) == Count(text, r) ==> ValueB(e) <= ValueB(r)
  {
    assert forall e :: e in init + [c] <==> e in init || e == c;
  }

  /** `Counter(text)[c]`. */
  function Count(text: string, c: char): nat
  {
    multiset(text)[c]
  }

  /** `text.replace(old, new)` for single characters. */
  function Replace(text: string, from: char, to: char): (r: string)
    ensures |r| == |text|
    ensures forall i :: 0 <= i < |text| ==> r[i] == if text[i] == from then to else text[i]
  {
    seq(|text|, i requires 0 <= i < |text| => if text[i] == from then to else text[i])
  }

  /** `text.replace('J', '')`. */
  function DropJokers(text: string): (r: string)
    ensures 'J' !in r
    ensures forall c :: c != 'J' ==> multiset(r)[c] == multiset(text)[c]
    ensures forall c :: c in r <==> c in text && c != 'J'
  {
    if text == [] then []
    else
      var r := DropJokers(text[..|text| - 1]);
      var x := text[|text| - 1];
      assert text == text[..|text| - 1] + [x];
      if x == 'J' then r else r + [x]
  }

  /** `boost`: every joker becomes the most frequent other card, ties broken by
      the higher part-two value; a hand of jokers only is left alone. */
  function Boost(text: string): (r: string)
    requires ValidCards(OrderB, text)
    ensures |r| == |text|
    ensures DropJokers(text) == [] ==> r == text
    ensures DropJokers(text) != [] ==>
              exists b :: b in text && b != 'J' && r == Replace(text, 'J', b) &&
                (forall c :: c in text && c != 'J' ==> Count(text, c) <= Count(text, b)) &&
                (forall c :: c in text && c != 'J' && Count(text, c) == Count(text, b) ==>
                   ValueB(c) <= ValueB(b))
  {
    var rest := DropJokers(text);
    if rest == [] then text
    else
      var d := Kinds(rest);
      assert rest[0] in d;

      var b := BestCard(rest, d);
      Replace(text, 'J', b)
  }

  /** `type_key_b`. */
  function TypeKeyB(text: string): (r: seq<nat>)
    requires ValidCards(OrderB, text)
    ensures NonIncreasing(r)
  {
    TypeKeyA(Boost(text))
  }

  /** Python's `<` on lists of integers: the first difference decides, and a
      proper prefix is smaller. */
  predicate LexLess(a: seq<int>, b: seq<int>)
  {
    if a == [] then b != []
    else if b == [] then false
    else if a[0] != b[0] then a[0] < b[0]
    else LexLess(a[1..], b[1..])
  }

  lemma {:induction false} LexLessIrreflexive(a: seq<int>)
    ensures !LexLess(a, a)
  {
    if a != [] {
      LexLessIrreflexive(a[1..]);
    }
  }

  lemma {:induction false} LexLessTransitive(a: seq<int>, b: seq<int>, c: seq<int>)
    requires LexLess(a, b) && LexLess(b, c)
    ensures LexLess(a, c)
  {
    if a != [] && b != [] && c != [] && a[0] == b[0] && b[0] == c[0] {
      LexLessTransitive(a[1..], b[1..], c[1..]);
    }
  }

  lemma {:induction false} LexLessTotal(a: seq<int>, b: seq<int>)
    ensures a == b || LexLess(a, b) || LexLess(b, a)
  {
    if a != [] && b != [] && a[0] == b[0] {
      LexLessTotal(a[1..], b[1..]);
      if a[1..] == b[1..] {
        assert a == [a[0]] + a[1..] && b == [b[0]] + b[1..];
      }
    }
  }

  datatype Hand = Hand(text: string, tieBreak: seq<int>, typeKey: seq<nat>)

  /** `Hand(text)`: None for a card outside the order (the KeyError). */
  function HandA(text: string): (r: Option<Hand>)
    ensures r.Some? <==> ValidCards(OrderA, text)
  {
    if ValidCards(OrderA, text) then Some(Hand(text, TieBreak(OrderA, text), TypeKeyA(text))) else None
  }

  /** `Hand.b(text)`. */
  function HandB(text: string): (r: Option<Hand>)
    ensures r.Some? <==> ValidCards(OrderB, text)
  {
    if ValidCards(OrderB, text) then Some(Hand(text, TieBreak(OrderB, text), TypeKeyB(text))) else None
  }

  /** `Hand.__lt__`. */
  predicate HandLess(h: Hand, o: Hand)
  {
    LexLess(h.typeKey, o.typeKey) || (h.typeKey == o.typeKey && LexLess(h.tieBreak, o.tieBreak))
  }

  /** `__lt__` is a strict order, and any two hands with different keys are comparable. */
  lemma HandLessStrictOrder(h: Hand, o: Hand, p: Hand)
    ensures !HandLess(h, h)
    ensures HandLess(h, o) && HandLess(o, p) ==> HandLess(h, p)
    ensures (h.typeKey, h.tieBreak) != (o.typeKey, o.tieBreak) ==> HandLess(h, o) || HandLess(o, h)
  {
    LexLessIrreflexive(h.typeKey);
    LexLessIrreflexive(h.tieBreak);
    LexLessTotal(h.typeKey, o.typeKey);
    LexLessTotal(h.tieBreak, o.tieBreak);
    if HandLess(h, o) && HandLess(o, p) {
      if LexLess(h.typeKey, o.typeKey) && LexLess(o.typeKey, p.typeKey) {
        LexLessTransitive(h.typeKey, o.typeKey, p.typeKey);
      } else if h.typeKey == o.typeKey && o.typeKey == p.typeKey {
        LexLessTransitive(h.tieBreak, o.tieBreak, p.tieBreak);
      }
    }
  }

  /** Hands with the same text compare neither way, so hands that differ
      compare one way. */
  lemma SameOrderDistinctHands(h: Hand, o: Hand)
    requires HandA(h.text) == Some(h) && HandA(o.text) == Some(o) && h.text != o.text
    ensures HandLess(h, o) || HandLess(o, h)
  {
    TieBreakInjective(OrderA, h.text, o.text);
    HandLessStrictOrder(h, o, o);
  }

  type Bid = (Hand, nat)

  /** Inserting after every element that is not greater keeps equal hands in
      input order, as Python's stable `sorted` does. */
  function InsertHand(x: Bid, s: seq<Bid>): (r: seq<Bid>)
    ensures multiset(r) == multiset(s) + multiset{x}
    ensures |r| == |s| + 1
  {
    if s == [] then [x]
    else if HandLess(x.0, s[0].0) then [x] + s
    else
      assert s == [s[0]] + s[1..];
      [s[0]] + InsertHand(x, s[1..])
  }

  predicate SortedHands(s: seq<Bid>)
  {
    forall i, j :: 0 <= i < j < |s| ==> !HandLess(s[j].0, s[i].0)
  }

  lemma {:induction false} InsertHandSorted(x: Bid, s: seq<Bid>)
    requires SortedHands(s)
    ensures SortedHands(InsertHand(x, s))
  {
    if s != [] && !HandLess(x.0, s[0].0) {
      InsertHandSorted(x, s[1..]);
      var r := InsertHand(x, s);
      forall j | 0 < j < |r| ensures !HandLess(r[j].0, r[0].0) {
        assert r[j] in multiset(s[1..]) + multiset{x};
        if r[j] == x {
        } else {
          assert r[j] in s[1..];
          var k :| 0 <= k < |s[1..]| && s[1..][k] == r[j];
          assert s[k + 1] == r[j];
        }
      }
    } else if s != [] {
      var r := InsertHand(x, s);
      forall j | 0 < j < |r| ensures !HandLess(r[j].0, x.0) {
        HandLessStrictOrder(r[j].0, s[0].0, x.0);
        HandLessStrictOrder(s[0].0, r[j].0, x.0);
        if j > 1 {
          HandLessStrictOrder(r[j].0, x.0, s[0].0);
        }
        LexLessIrreflexive(x.0.typeKey);
        HandLessStrictOrder(x.0, s[0].0, r[j].0);
        HandLessStrictOrder(r[j].0, x.0, s[0].0);
      }
    }
  }

  /** `sorted(bids, key=hand)`: a stable insertion sort. */
  function SortHands(s: seq<Bid>): (r: seq<Bid>)
    ensures multiset(r) == multiset(s)
    ensures SortedHands(r)
  {
    if s == [] then []
    else
      var init := s[..|s| - 1];
      assert s == init + [s[|s| - 1]];
      var r := InsertHand(s[|s| - 1], SortHands(init));
      InsertHandSorted(s[|s| - 1], SortHands(init));
      r
  }

  /** Two hands compare equal under `__lt__`: same type key and tie-break. */
  predicate SameKey(h: Hand, o: Hand)
  {
    h.typeKey == o.typeKey && h.tieBreak == o.tieBreak
  }

  /** The bids whose hand compares equal to `h`, in their order in `s`. */
  function EqualTo(s: seq<Bid>, h: Hand): (r: seq<Bid>)
    ensures |r| <= |s|
  {
    if s == [] then []
    else (if SameKey(s[0].0, h) then [s[0]] else []) + EqualTo(s[1..], h)
  }

  lemma {:induction false} EqualToAppend(s: seq<Bid>, t: seq<Bid>, h: Hand)
    ensures EqualTo(s + t, h) == EqualTo(s, h) + EqualTo(t, h)
  {
    if s != [] {
      assert (s + t)[0] == s[0] && (s + t)[1..] == s[1..] + t;
      EqualToAppend(s[1..], t, h);
      Regroup(if SameKey(s[0].0, h) then [s[0]] else [], EqualTo(s[1..], h), EqualTo(t, h));
    } else {
      assert s + t == t;
    }
  }

  /** In a sorted list headed by a hand greater than `x`, no hand equals `x`. */
  lemma {:induction false} EqualToAbove(x: Hand, s: seq<Bid>)
    requires SortedHands(s) && s != [] && HandLess(x, s[0].0)
    ensures EqualTo(s, x) == []
  {
    LexLessIrreflexive(x.typeKey);
    LexLessIrreflexive(x.tieBreak);
    if |s| > 1 {
      assert SortedHands(s[1..]);
      assert !HandLess(s[1].0, s[0].0);
      HandLessStrictOrder(s[0].0, s[1].0, s[1].0);
      HandLessStrictOrder(x, s[0].0, s[1].0);
      EqualToAbove(x, s[1..]);
    }
  }

  /** Insertion puts `x` after every hand that equals it. */
  lemma {:induction false} InsertHandStable(x: Bid, s: seq<Bid>, h: Hand)
    requires SortedHands(s)
    ensures EqualTo(InsertHand(x, s), h) ==
            EqualTo(s, h) + (if SameKey(x.0, h) then [x] else [])
  {
    if s == [] {
    } else if HandLess(x.0, s[0].0) {
      InsertHandFront(x, s, h);
    } else {
      var t := s[1..];
      assert SortedHands(t);
      InsertHandStable(x, t, h);
      InsertHandBehind(x, s, h);
    }
  }

  lemma InsertHandBehind(x: Bid, s: seq<Bid>, h: Hand)
    requires s != [] && !HandLess(x.0, s[0].0)
    requires EqualTo(InsertHand(x, s[1..]), h) ==
             EqualTo(s[1..], h) + (if SameKey(x.0, h) then [x] else [])
    ensures EqualTo(InsertHand(x, s), h) ==
            EqualTo(s, h) + (if SameKey(x.0, h) then [x] else [])
  {
    var t := s[1..];
    var r := InsertHand(x, s);
    var head: seq<Bid> := if SameKey(s[0].0, h) then [s[0]] else [];
    var tail: seq<Bid> := if SameKey(x.0, h) then [x] else [];
    assert r == [s[0]] + InsertHand(x, t);
    assert r[0] == s[0] && r[1..] == InsertHand(x, t);
    assert EqualTo(r, h) == head + (EqualTo(t, h) + tail);
    assert EqualTo(s, h) == head + EqualTo(t, h);
    Regroup(head, EqualTo(t, h), tail);
  }

  lemma InsertHandFront(x: Bid, s: seq<Bid>, h: Hand)
    requires SortedHands(s) && s != [] && HandLess(x.0, s[0].0)
    ensures EqualTo([x] + s, h) == EqualTo(s, h) + (if SameKey(x.0, h) then [x] else [])
  {
    assert ([x] + s)[1..] == s;
    if SameKey(x.0, h) {
      EqualToAbove(x.0, s);
      EqualToSame(s, h, x.0);
    }
  }

  lemma {:induction false} EqualToSame(s: seq<Bid>, h: Hand, o: Hand)
    requires SameKey(h, o)
    ensures EqualTo(s, h) == EqualTo(s, o)
  {
    if s != [] {
      EqualToSame(s[1..], h, o);
    }
  }

  /** `sorted` is stable: hands that compare equal keep their input order. */
  lemma {:induction false} SortHandsStable(s: seq<Bid>, h: Hand)
    ensures EqualTo(SortHands(s), h) == EqualTo(s, h)
  {
    if s != [] {
      var init := s[..|s| - 1];
      assert s == init + [s[|s| - 1]];
      SortHandsStable(init, h);
      InsertHandStable(s[|s| - 1], SortHands(init), h);
      EqualToAppend(init, [s[|s| - 1]], h);
    }
  }

  /** Σ (rank + 1) × bid over the sorted bids, ranks counted from `from`. */
  function Winnings(s: seq<Bid>, from: nat): nat
  {
    if s == [] then 0 else (from + 1) * s[0].1 + Winnings(s[1..], from + 1)
  }

  /** One input line: `hand bid`, exactly two words. */
  function ParseLine(line: string, partB: bool): (r: Option<Bid>)
    ensures r.Some? ==> |Words(line)| == 2 && r.value.0.text == Words(line)[0] &&
                        ParseInt(Words(line)[1]) == Some(r.value.1 as int)
  {
    var ws := Words(line);
    if |ws| != 2 then None
    else match ((if partB then HandB(ws[0]) else HandA(ws[0])), ParseInt(ws[1]))
      case (Some(h), Some(b)) => if b >= 0 then Some((h, b as nat)) else None
      case _ => None
  }

  /** A hand of valid cards and a bid, written `hand bid`, parse back to that
      hand and bid. */
  lemma ParseLineWritten(text: string, bid: nat, partB: bool)
    requires text != [] && ValidCards(if partB then OrderB else OrderA, text)
    ensures ParseLine(text + " " + IntText(bid), partB) ==
            Some(((if partB then HandB(text) else HandA(text)).value, bid))
  {
    assert forall j :: 0 <= j < |text| ==> text[j] in (if partB then OrderB else OrderA);
    IntTextChars(bid, ' ');
    WordsPair(text, IntText(bid));
    ParseIntWritten(bid);
  }

  function ParseLines(lines: seq<string>, partB: bool): (r: Option<seq<Bid>>)
    ensures r.Some? <==> forall i :: 0 <= i < |lines| ==> ParseLine(lines[i], partB).Some?
    ensures r.Some? ==> |r.value| == |lines| &&
                        forall i :: 0 <= i < |lines| ==> Some(r.value[i]) == ParseLine(lines[i], partB)
  {
    if lines == [] then Some([])
    else match (ParseLine(lines[0], partB), ParseLines(lines[1..], partB))
      case (Some(x), Some(xs)) => Some([x] + xs)
      case _ => None
  }

  /** `day7a` (partB false) and `day7b` (partB true). */
  function Day7(lines: seq<string>, partB: bool): (r: Option<nat>)
    ensures r.Some? <==> forall i :: 0 <= i < |lines| ==> ParseLine(lines[i], partB).Some?
  {
    match ParseLines(lines, partB)
    case None => None
    case Some(bids) => Some(Winnings(SortHands(bids), 0))
  }
}
