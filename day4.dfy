/** Scratch cards (aoc23/day4.py): a card's matches are the winning numbers
    it reveals; in part two each card wins copies of the cards that follow it. */
module Day4 {
  import opened Common

  datatype Card = Card(id: nat, winners: set<int>, revealed: set<int>)

  /** `Card.matches`: how many winning numbers are revealed. */
  function Matches(c: Card): (m: nat)
    ensures m <= |c.winners| && m <= |c.revealed|
  {
    CardinalityOfIntersection(c.winners, c.revealed);
    |c.winners * c.revealed|
  }

  lemma CardinalityOfIntersection(a: set<int>, b: set<int>)
    ensures |a * b| <= |a| && |a * b| <= |b|
  {
    assert a == (a * b) + (a - b) && (a * b) * (a - b) == {};
    assert b == (a * b) + (b - a) && (a * b) * (b - a) == {};
  }

  function Pow2(n: nat): (p: nat)
    ensures p >= 1
  {
    if n == 0 then 1 else 2 * Pow2(n - 1)
  }

  /** `Card.score` for a card with m matches: 0 without matches, else `1 << (m - 1)`. */
  function Points(m: nat): (p: nat)
    ensures p == 0 <==> m == 0
  {
    if m == 0 then 0 else Pow2(m - 1)
  }

  /** Each match beyond the first doubles a card's score. */
  lemma PointsDouble(m: nat)
    requires m >= 1
    ensures Points(m + 1) == 2 * Points(m)
  {
  }

  /** `Card.score`: a card scores exactly when one of its winning numbers is revealed. */
  function Score(c: Card): (s: nat)
    ensures s == 0 <==> c.winners * c.revealed == {}
  {
    Points(Matches(c))
  }

  /** The number of copies of card j that part two ends up with, given the
      match counts of all cards: the original plus one per copy of every
      earlier card i whose prize range `i+1 .. i+hits[i]` covers j. */
  function Copies(hits: seq<nat>, j: nat): (c: nat)
    requires j < |hits|
    ensures c >= 1
    decreases j, 1
  {
    1 + Contributions(hits, j, j)
  }

  /** The copies of card j won by cards 0 .. i-1. */
  function Contributions(hits: seq<nat>, j: nat, i: nat): nat
    requires i <= j < |hits|
    decreases i, 0
  {
    if i == 0 then 0
    else Contributions(hits, j, i - 1) + (if j <= i - 1 + hits[i - 1] then Copies(hits, i - 1) else 0)
  }

  /** The total number of cards held at the end of part two. */
  function TotalCopies(hits: seq<nat>, n: nat): nat
    requires n <= |hits|
  {
    if n == 0 then 0 else TotalCopies(hits, n - 1) + Copies(hits, n - 1)
  }

  /** A card never wins copies of itself or of earlier cards, so without
      matches anywhere every card is held exactly once. */
  lemma {:induction false} NoMatchesNoCopies(hits: seq<nat>, n: nat)
    requires n <= |hits|
    requires forall i :: 0 <= i < |hits| ==> hits[i] == 0
    ensures TotalCopies(hits, n) == n
  {
    if n > 0 {
      NoContributions(hits, n - 1, n - 1);
      NoMatchesNoCopies(hits, n - 1);
    }
  }

  lemma {:induction false} NoContributions(hits: seq<nat>, j: nat, i: nat)
    requires i <= j < |hits|
    requires forall k :: 0 <= k < |hits| ==> hits[k] == 0
    ensures Contributions(hits, j, i) == 0
  {
    if i > 0 {
      NoContributions(hits, j, i - 1);
    }
  }

  /** The cascade of `day4b`, in place on a counts array: card i adds its
      count to each of the next `hits[i]` cards that exist. */
  method CascadeCounts(hits: seq<nat>) returns (total: nat)
    ensures total == TotalCopies(hits, |hits|)
  {
    var n := |hits|;
    var counts := new nat[n](_ => 1);
    var i := 0;
    while i < n
      invariant 0 <= i <= n
      invariant forall k :: 0 <= k < i ==> counts[k] == Copies(hits, k)
      invariant forall k :: i <= k < n ==> counts[k] == 1 + Contributions(hits, k, i)
    {
      assert counts[i] == Copies(hits, i);
      var h := hits[i];
      if h > 0 {
        var offset := 1;
        while offset <= h
          invariant 1 <= offset <= h + 1
          invariant forall k :: 0 <= k <= i ==> counts[k] == Copies(hits, k)
          invariant forall k :: i < k < n && k < i + offset ==> counts[k] == 1 + Contributions(hits, k, i + 1)
          invariant forall k :: i < k < n && k >= i + offset ==> counts[k] == 1 + Contributions(hits, k, i)
        {
          if i + offset < n {
            counts[i + offset] := counts[i + offset] + counts[i];
          }
          offset := offset + 1;
        }
      }
      i := i + 1;
    }
    total := 0;
    var j := 0;
    while j < n
      invariant 0 <= j <= n
      invariant total == TotalCopies(hits, j)
    {
      total := total + counts[j];
      j := j + 1;
    }
  }

  function SpaceRunEnd(s: string, i: nat): (k: nat)
    requires i <= |s|
    ensures i <= k <= |s|
    decreases |s| - i
  {
    if i == |s| || !IsSpace(s[i]) then i else SpaceRunEnd(s, i + 1)
  }

  /** The last index holding c, if any. */
  function LastIndexOf(s: string, c: char): (r: Option<nat>)
    ensures r.Some? ==> r.value < |s| && s[r.value] == c && c !in s[r.value + 1..]
    ensures r.None? ==> c !in s
  {
    if s == [] then None
    else if s[|s| - 1] == c then Some(|s| - 1)
    else
      match LastIndexOf(s[..|s| - 1], c)
      case None => None
      case Some(k) =>
        assert s[k + 1..] == s[..|s| - 1][k + 1..] + [s[|s| - 1]];
        Some(k)
  }

  function ToSet(xs: seq<int>): set<int>
  {
    set x | x in xs
  }

  /** `Card(line)` with `card_re`: "Card", blanks, the id, ':', then the
      winners and the revealed numbers around the last '|', each side
      separated from the bar by blanks. None stands for the failed match (the
      card then has no numbers) or a token that `int` rejects. */
  function ParseCard(line: string): (r: Option<Card>)
    ensures r.Some? ==> HasAt(line, 0, "Card")
  {
    if !HasAt(line, 0, "Card") then None
    else
      var a := SpaceRunEnd(line, 4);
      var k := DigitRunEnd(line, a);
      if a == 4 || k == a || !HasAt(line, k, ":") then None
      else
        match ParseSides(line[k + 1..])
        case None => None
        case Some((w, v)) => Some(Card(DigitsValue(line[a..k]), w, v))
  }

  /** What follows the ':' of a card: the winners and the revealed numbers
      around the last '|', each side separated from the bar by blanks. */
  function ParseSides(rest: string): (r: Option<(set<int>, set<int>)>)
    ensures '|' !in rest ==> r.None?
    ensures r.Some? ==>
              exists bar :: 0 <= bar < |rest| && rest[bar] == '|' && '|' !in rest[bar + 1..] &&
                            ParseInts(Words(rest[..bar])).Some? && ParseInts(Words(rest[bar + 1..])).Some? &&
                            r.value.0 == ToSet(ParseInts(Words(rest[..bar])).value) &&
                            r.value.1 == ToSet(ParseInts(Words(rest[bar + 1..])).value)
  {
    match LastIndexOf(rest, '|')
    case None => None
    case Some(bar) =>
      var left, right := rest[..bar], rest[bar + 1..];
      if |left| < 2 || !IsSpace(left[0]) || !IsSpace(left[|left| - 1]) then None
      else if |right| < 1 || !IsSpace(right[0]) then None
      else
        match (ParseInts(Words(left)), ParseInts(Words(right)))
        case (Some(w), Some(v)) => Some((ToSet(w), ToSet(v)))
        case _ => None
  }

  /** A card as the puzzle writes it: `Card 1: 41 48 | 83 86 6`. */
  function CardText(id: nat, winners: seq<int>, revealed: seq<int>): string
  {
    "Card " + Decimal(id) + (":" + (Spaced(winners) + " |" + Spaced(revealed)))
  }

  /** The header `Card <id>:` of a card line. */
  lemma CardHeader(line: string, d: string, rest: string)
    requires d != [] && AllDigits(d) && line == "Card " + d + (":" + rest)
    ensures HasAt(line, 0, "Card") && SpaceRunEnd(line, 4) == 5 && DigitRunEnd(line, 5) == 5 + |d|
    ensures line[5..5 + |d|] == d && HasAt(line, 5 + |d|, ":") && line[5 + |d| + 1..] == rest
  {
    assert line[..4] == "Card";
    assert line[4] == ' ' && line[5] == d[0];
    assert line[5..5 + |d|] == d;
    assert line[5 + |d|] == ':';
    DigitRunEndAt(line, 5, 5 + |d|);
    assert line[5 + |d|..] == ":" + rest;
    assert line[5 + |d|..5 + |d| + 1] == (":" + rest)[..1];
  }

  /** The numbers of a written card lie either side of its only '|'. */
  lemma CardBars(rest: string, winners: seq<int>, revealed: seq<int>)
    requires rest == Spaced(winners) + " |" + Spaced(revealed)
    ensures LastIndexOf(rest, '|') == Some(|Spaced(winners)| + 1)
    ensures rest[..|Spaced(winners)| + 1] == Spaced(winners) + " "
    ensures rest[|Spaced(winners)| + 2..] == Spaced(revealed)
  {
    SpacedChars(winners, '|');
    SpacedChars(revealed, '|');
    OnlyBar(Spaced(winners), Spaced(revealed));
  }

  lemma OnlyBar(w: string, v: string)
    requires '|' !in w && '|' !in v
    ensures LastIndexOf(w + " |" + v, '|') == Some(|w| + 1)
    ensures (w + " |" + v)[..|w| + 1] == w + " "
    ensures (w + " |" + v)[|w| + 2..] == v
  {
    var rest := w + " |" + v;
    assert rest[|w| + 1] == '|';
    assert rest[..|w| + 1] == w + " ";
    assert rest[|w| + 2..] == v;
  }

  /** The numbers on either side of the bar are read back. */
  lemma SidesRead(winners: seq<int>, revealed: seq<int>)
    ensures ParseInts(Words(Spaced(winners) + " ")) == Some(winners)
    ensures ParseInts(Words(Spaced(revealed))) == Some(revealed)
  {
    WordsSpaced(winners, " ");
    assert Words(" ") == [];
    assert IntTexts(winners) + [] == IntTexts(winners);
    WordsSpaced(revealed, "");
    assert Spaced(revealed) + "" == Spaced(revealed);
    assert IntTexts(revealed) + [] == IntTexts(revealed);
    ParseIntsWritten(winners);
    ParseIntsWritten(revealed);
  }

  /** The two written sides of a card are read back as the sets of their numbers. */
  lemma ParseSidesWritten(winners: seq<int>, revealed: seq<int>)
    requires winners != [] && revealed != []
    ensures ParseSides(Spaced(winners) + " |" + Spaced(revealed)) == Some((ToSet(winners), ToSet(revealed)))
  {
    CardBars(Spaced(winners) + " |" + Spaced(revealed), winners, revealed);
    SidesRead(winners, revealed);
    SpacedStart(winners);
    SpacedStart(revealed);
  }

  /** A header `Card <id>:` leaves the rest of the line to the two sides. */
  lemma CardAt(line: string, d: string, rest: string)
    requires d != [] && AllDigits(d) && line == "Card " + d + (":" + rest)
    requires ParseSides(rest).Some?
    ensures ParseCard(line) == Some(Card(DigitsValue(d), ParseSides(rest).value.0, ParseSides(rest).value.1))
  {
    CardHeader(line, d, rest);
  }

  /** A written card parses back to its id, the set of its winning numbers
      and the set of the numbers revealed. */
  lemma ParseCardWritten(id: nat, winners: seq<int>, revealed: seq<int>)
    requires winners != [] && revealed != []
    ensures ParseCard(CardText(id, winners, revealed)) == Some(Card(id, ToSet(winners), ToSet(revealed)))
  {
    ParseSidesWritten(winners, revealed);
    CardAt(CardText(id, winners, revealed), Decimal(id), Spaced(winners) + " |" + Spaced(revealed));
  }

  /** The match count of every card, or None if any line is malformed. */
  function MatchCounts(lines: seq<string>): (r: Option<seq<nat>>)
    ensures r.Some? <==> forall i :: 0 <= i < |lines| ==> ParseCard(lines[i]).Some?
    ensures r.Some? ==> |r.value| == |lines| &&
                        forall i :: 0 <= i < |lines| ==> r.value[i] == Matches(ParseCard(lines[i]).value)
  {
    if lines == [] then Some([])
    else match (ParseCard(lines[0]), MatchCounts(lines[1..]))
      case (Some(c), Some(ms)) => Some([Matches(c)] + ms)
      case _ => None
  }

  /** The total score of cards with the given match counts: nothing exactly
      when no card has a match. */
  function SumPoints(hits: seq<nat>): (total: nat)
    ensures total == 0 <==> forall i :: 0 <= i < |hits| ==> hits[i] == 0
  {
    if hits == [] then 0 else Points(hits[0]) + SumPoints(hits[1..])
  }

  /** `day4a`: the total score of the cards. */
  function Day4A(lines: seq<string>): (r: Option<nat>)
    ensures r.Some? <==> forall i :: 0 <= i < |lines| ==> ParseCard(lines[i]).Some?
    ensures r.Some? ==> (r.value == 0 <==> forall i :: 0 <= i < |lines| ==> Score(ParseCard(lines[i]).value) == 0)
  {
    match MatchCounts(lines)
    case None => None
    case Some(hits) => Some(SumPoints(hits))
  }

  /** `day4b`: the number of cards held once all copies are won. */
  method Day4B(lines: seq<string>) returns (r: Option<nat>)
    ensures MatchCounts(lines).None? ==> r.None?
    ensures MatchCounts(lines).Some? ==> r == Some(TotalCopies(MatchCounts(lines).value, |lines|))
  {
    var hits := MatchCounts(lines);
    if hits.None? {
      return None;
    }
    var total := CascadeCounts(hits.value);
    return Some(total);
  }

  /** The first sample card has the four matches 48, 83, 86 and 17. */
  lemma FirstSampleCard()
    ensures Matches(Card(1, {41, 48, 83, 86, 17}, {83, 86, 6, 31, 17, 9, 48, 53})) == 4
  {
    assert {41, 48, 83, 86, 17} * {83, 86, 6, 31, 17, 9, 48, 53} == {48, 83, 86, 17};
  }

  /** The sample's match counts are 4, 2, 2, 1, 0, 0: worth 13 points, and
      30 cards once every copy is won. */
  lemma SampleAnswers()
    ensures SumPoints([4, 2, 2, 1, 0, 0]) == 13
    ensures TotalCopies([4, 2, 2, 1, 0, 0], 6) == 30
  {
    var h: seq<nat> := [4, 2, 2, 1, 0, 0];
    assert Copies(h, 0) == 1;
    assert Copies(h, 1) == 2;
    assert Copies(h, 2) == 4;
    assert Copies(h, 3) == 8;
    assert Copies(h, 4) == 14;
    assert Copies(h, 5) == 1;
  }
}
