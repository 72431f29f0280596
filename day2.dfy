/** Cube games (aoc23/day2.py): each game lists draws of red, green and blue
    cubes; the fewest cubes that make a game possible are the componentwise
    maximum of its draws. */
module Day2 {
  import opened Common

  datatype RGB = RGB(red: nat, green: nat, blue: nat)

  datatype Colour = Red | Green | Blue

  /** One `(\d+) (blue|green|red)` match: a count and the colour it belongs to. */
  datatype Evidence = Evidence(count: nat, colour: Colour)

  datatype Game = Game(id: nat, evidence: seq<RGB>, minimums: RGB)

  /** `RGB.power`. */
  function Power(c: RGB): (p: nat)
    ensures p == 0 <==> c.red == 0 || c.green == 0 || c.blue == 0
  {
    c.red * c.green * c.blue
  }

  /** Componentwise `a <= b`. */
  predicate Within(a: RGB, b: RGB)
  {
    a.red <= b.red && a.green <= b.green && a.blue <= b.blue
  }

  /** `upper`: the least RGB that bounds both arguments. */
  function Upper(l: RGB, r: RGB): (u: RGB)
    ensures Within(l, u) && Within(r, u)
    ensures forall c :: Within(l, c) && Within(r, c) ==> Within(u, c)
  {
    RGB(Max(l.red, r.red), Max(l.green, r.green), Max(l.blue, r.blue))
  }

  lemma UpperCommutes(a: RGB, b: RGB)
    ensures Upper(a, b) == Upper(b, a)
  {
  }

  lemma UpperIdempotent(a: RGB)
    ensures Upper(a, a) == a
  {
  }

  lemma UpperAssociates(a: RGB, b: RGB, c: RGB)
    ensures Upper(Upper(a, b), c) == Upper(a, Upper(b, c))
  {
  }

  /** `reduce(upper, draws)`: defined for at least one draw, folded from the left. */
  function Minimums(draws: seq<RGB>): (m: RGB)
    requires |draws| > 0
    ensures forall i :: 0 <= i < |draws| ==> Within(draws[i], m)
    ensures forall c :: (forall i :: 0 <= i < |draws| ==> Within(draws[i], c)) ==> Within(m, c)
  {
    if |draws| == 1 then draws[0] else Upper(Minimums(draws[..|draws| - 1]), draws[|draws| - 1])
  }

  /** `Game.possible`. */
  predicate Possible(g: Game, candidate: RGB)
  {
    Within(g.minimums, candidate)
  }

  /** A parsed game is possible for a candidate exactly when every draw fits in it. */
  lemma PossibleIffEveryDraw(g: Game, candidate: RGB)
    requires |g.evidence| > 0 && g.minimums == Minimums(g.evidence)
    ensures Possible(g, candidate) <==>
            forall i :: 0 <= i < |g.evidence| ==> Within(g.evidence[i], candidate)
  {
  }

  /** The word `evidence_regex` accepts for a colour. */
  function Word(c: Colour): string
  {
    match c
    case Red => "red"
    case Green => "green"
    case Blue => "blue"
  }

  /** The colour word that follows a space at index k, with its length: a
      colour is found exactly when one of the three words is written there. */
  function ColourAt(s: string, k: nat): (r: Option<(Colour, nat)>)
    ensures r.Some? ==> HasAt(s, k, " " + Word(r.value.0)) && r.value.1 == |Word(r.value.0)|
    ensures r.Some? ==> k + 1 + r.value.1 <= |s|
  {
    if HasAt(s, k, " blue") then Some((Blue, 4))
    else if HasAt(s, k, " green") then Some((Green, 5))
    else if HasAt(s, k, " red") then Some((Red, 3))
    else None
  }

  /** No colour is found exactly when none of the three words is written at k. */
  lemma ColourAtNone(s: string, k: nat)
    ensures ColourAt(s, k).None? <==> forall c: Colour :: !HasAt(s, k, " " + Word(c))
  {
    assert " " + Word(Blue) == " blue" && " " + Word(Green) == " green" && " " + Word(Red) == " red";
  }

  /** A colour word written after a space is found, whatever follows it. */
  lemma ColourWritten(c: Colour, tail: string)
    ensures ColourAt(" " + Word(c) + tail, 0) == Some((c, |Word(c)|))
  {
    var s := " " + Word(c) + tail;
    assert s[..1 + |Word(c)|] == " " + Word(c);
    assert s[1] == Word(c)[0];
    assert " " + Word(Blue) == " blue" && " " + Word(Green) == " green" && " " + Word(Red) == " red";
    if c != Blue {
      assert !HasAt(s, 0, " blue") by {
        assert s[1] != 'b';
      }
    }
    if c == Red {
      assert !HasAt(s, 0, " green") by {
        assert s[1] != 'g';
      }
    }
  }

  lemma HasAtShift(p: string, t: string, k: nat, w: string)
    ensures HasAt(p + t, |p| + k, w) == HasAt(t, k, w)
  {
    if k + |w| <= |t| {
      assert (p + t)[|p| + k..|p| + k + |w|] == t[k..k + |w|];
    }
  }

  /** Where a colour word is looked for depends only on the text from there on. */
  lemma ColourAtShift(p: string, t: string, k: nat)
    ensures ColourAt(p + t, |p| + k) == ColourAt(t, k)
  {
    HasAtShift(p, t, k, " blue");
    HasAtShift(p, t, k, " green");
    HasAtShift(p, t, k, " red");
  }

  /** `evidence_regex.findall(s)`: scan left to right; at a digit, the whole
      digit run followed by a colour word is a match, and scanning resumes
      after it; otherwise scanning moves one character on. */
  function FindAll(s: string): (ms: seq<Evidence>)
    ensures |ms| <= |s|
    decreases |s|
  {
    if s == [] then []
    else if IsDigit(s[0]) then
      var k := DigitRunEnd(s, 0);
      var r := ColourAt(s, k);
      if r.Some? then [Evidence(DigitsValue(s[..k]), r.value.0)] + FindAll(s[k + 1 + r.value.1..])
      else FindAll(s[1..])
    else FindAll(s[1..])
  }

  /** The count of the last match of colour c, or 0 when there is none: the
      dictionary merge in `to_rgb`, where later pairs override earlier ones. */
  function LastCount(ms: seq<Evidence>, c: Colour): (n: nat)
    ensures (forall i :: 0 <= i < |ms| ==> ms[i].colour != c) ==> n == 0
    ensures (exists i :: 0 <= i < |ms| && ms[i].colour == c) ==>
              exists i :: 0 <= i < |ms| && ms[i].colour == c && ms[i].count == n &&
                forall j :: i < j < |ms| ==> ms[j].colour != c
  {
    if ms == [] then 0
    else if ms[|ms| - 1].colour == c then ms[|ms| - 1].count
    else LastCount(ms[..|ms| - 1], c)
  }

  /** The colour counts a list of matches leaves in `to_rgb`'s dictionary. */
  function RgbOf(ms: seq<Evidence>): RGB
  {
    RGB(LastCount(ms, Red), LastCount(ms, Green), LastCount(ms, Blue))
  }

  /** `to_rgb`. */
  function ToRgb(text: string): RGB
  {
    RgbOf(FindAll(text))
  }

  /** `[to_rgb(draw) for draw in draws]`. */
  function ToRgbs(draws: seq<string>): (rs: seq<RGB>)
    ensures |rs| == |draws|
  {
    seq(|draws|, i requires 0 <= i < |draws| => ToRgb(draws[i]))
  }

  /** `to_rgb` defaults every colour without a match to 0. */
  lemma ToRgbDefaultsToZero(text: string)
    ensures (forall e :: e in FindAll(text) ==> e.colour != Red) ==> ToRgb(text).red == 0
    ensures (forall e :: e in FindAll(text) ==> e.colour != Green) ==> ToRgb(text).green == 0
    ensures (forall e :: e in FindAll(text) ==> e.colour != Blue) ==> ToRgb(text).blue == 0
  {
  }

  /** The text that `(.*)` captures: everything up to the first line break. */
  function LineRest(s: string): (r: string)
    ensures |r| <= |s| && r == s[..|r|]
    ensures '\n' !in r
    ensures |r| < |s| ==> s[|r|] == '\n'
  {
    if s == [] || s[0] == '\n' then [] else [s[0]] + LineRest(s[1..])
  }

  /** `Game(text)`: `Game (\d+): (.*)` must match at the start of the line,
      otherwise the constructor raises ValueError (None). */
  function ParseGame(text: string): (r: Option<Game>)
    ensures r.Some? ==> HasAt(text, 0, "Game ") && |r.value.evidence| > 0
    ensures r.Some? ==> r.value.minimums == Minimums(r.value.evidence)
  {
    if !HasAt(text, 0, "Game ") then None
    else
      var k := DigitRunEnd(text, 5);
      if k == 5 || !HasAt(text, k, ": ") then None
      else
        var evidence := ToRgbs(Split(LineRest(text[k + 2..]), ';'));
        Some(Game(DigitsValue(text[5..k]), evidence, Minimums(evidence)))
  }

  /** A line that does not start with `Game ` is rejected. */
  lemma ParseGameRejects(text: string)
    requires |text| > 0 && text[0] != 'G'
    ensures ParseGame(text) == None
  {
  }

  /** One match as a draw writes it: `3 blue`. */
  function Item(e: Evidence): string
  {
    Decimal(e.count) + " " + Word(e.colour)
  }

  /** A draw as the puzzle writes it: its matches separated by `, `. */
  function DrawText(es: seq<Evidence>): string
  {
    if es == [] then ""
    else if |es| == 1 then Item(es[0])
    else Item(es[0]) + ", " + DrawText(es[1..])
  }

  /** The pieces `;` separates in a written game: every draw but the first
      follows a space. */
  function Pieces(ds: seq<seq<Evidence>>): seq<string>
  {
    seq(|ds|, i requires 0 <= i < |ds| => if i == 0 then DrawText(ds[0]) else " " + DrawText(ds[i]))
  }

  /** A game line as the puzzle writes it: `Game 1: 3 blue, 4 red; 1 red`. */
  function GameText(id: nat, ds: seq<seq<Evidence>>): string
    requires ds != []
  {
    "Game " + Decimal(id) + ": " + Join(Pieces(ds), ';')
  }

  /** The draws `to_rgb` should make of a written game. */
  function Rgbs(ds: seq<seq<Evidence>>): seq<RGB>
  {
    seq(|ds|, i requires 0 <= i < |ds| => RgbOf(ds[i]))
  }

  /** A written match at the start of a text is found, and the scan resumes right after it. */
  lemma ItemFound(e: Evidence, tail: string)
    ensures FindAll(Item(e) + tail) == [e] + FindAll(tail)
  {
    var d := Decimal(e.count);
    var rest := " " + Word(e.colour) + tail;
    assert Item(e) + tail == d + rest;
    assert (d + rest)[..|d|] == d;
    assert (d + rest)[|d|] == ' ';
    DigitRunEndAt(d + rest, 0, |d|);
    ColourWritten(e.colour, tail);
    ColourAtShift(d, rest, 0);
    assert (d + rest)[|d| + 1 + |Word(e.colour)|..] == tail;
  }

  /** The separator `, ` holds no match. */
  lemma CommaSkipped(t: string)
    ensures FindAll(", " + t) == FindAll(t)
  {
    assert (", " + t)[1..] == " " + t;
    assert (" " + t)[1..] == t;
  }

  /** A leading space holds no match. */
  lemma SpaceSkipped(t: string)
    ensures FindAll(" " + t) == FindAll(t)
  {
    assert (" " + t)[1..] == t;
  }

  /** `evidence_regex.findall` reads a written draw back as exactly its matches, in order. */
  lemma {:induction false} FindAllWritten(es: seq<Evidence>)
    ensures FindAll(DrawText(es)) == es
  {
    if |es| == 1 {
      ItemFound(es[0], "");
      assert Item(es[0]) + "" == Item(es[0]);
    } else if |es| > 1 {
      var rest := DrawText(es[1..]);
      ItemFound(es[0], ", " + rest);
      assert DrawText(es) == Item(es[0]) + (", " + rest);
      CommaSkipped(rest);
      FindAllWritten(es[1..]);
    }
  }

  /** `to_rgb` of a written draw, with or without a leading space, gives its
      counts: the last count written for each colour, 0 for a colour not written. */
  lemma ToRgbWritten(es: seq<Evidence>)
    ensures ToRgb(DrawText(es)) == RgbOf(es)
    ensures ToRgb(" " + DrawText(es)) == RgbOf(es)
  {
    FindAllWritten(es);
    SpaceSkipped(DrawText(es));
  }

  /** A written draw holds no `;` and no line break. */
  lemma {:induction false} DrawTextChars(es: seq<Evidence>)
    ensures ';' !in DrawText(es) && '\n' !in DrawText(es)
  {
    if es != [] {
      var d := Decimal(es[0].count);
      assert forall j :: 0 <= j < |d| ==> IsDigit(d[j]);
      assert ';' !in Item(es[0]) && '\n' !in Item(es[0]);
      if |es| > 1 {
        DrawTextChars(es[1..]);
      }
    }
  }

  /** A header `Game <id>: ` leaves the rest of the line to the draws. */
  lemma HeaderRead(id: nat, rest: string)
    requires ToRgbs(Split(LineRest(rest), ';')) != []
    ensures var ev := ToRgbs(Split(LineRest(rest), ';'));
            ParseGame("Game " + Decimal(id) + ": " + rest) == Some(Game(id, ev, Minimums(ev)))
  {
    HeaderAt("Game " + Decimal(id) + ": " + rest, Decimal(id), rest);
  }

  lemma HeaderAt(text: string, d: string, rest: string)
    requires d != [] && AllDigits(d) && text == "Game " + d + (": " + rest)
    requires ToRgbs(Split(LineRest(rest), ';')) != []
    ensures var ev := ToRgbs(Split(LineRest(rest), ';'));
            ParseGame(text) == Some(Game(DigitsValue(d), ev, Minimums(ev)))
  {
    HeaderFields(text, d, rest);
  }

  lemma HeaderFields(text: string, d: string, rest: string)
    requires d != [] && AllDigits(d) && text == "Game " + d + (": " + rest)
    ensures HasAt(text, 0, "Game ") && DigitRunEnd(text, 5) == 5 + |d|
    ensures text[5..5 + |d|] == d && HasAt(text, 5 + |d|, ": ") && text[5 + |d| + 2..] == rest
  {
    assert text[..5] == "Game ";
    assert text[5..5 + |d|] == d;
    assert text[5 + |d|] == ':';
    DigitRunEndAt(text, 5, 5 + |d|);
    assert text[5 + |d|..5 + |d| + 2] == ": ";
  }

  /** The written draws are read back as the counts of each draw. */
  lemma PiecesRead(ds: seq<seq<Evidence>>)
    requires ds != []
    ensures ToRgbs(Split(LineRest(Join(Pieces(ds), ';')), ';')) == Rgbs(ds)
  {
    var ps := Pieces(ds);
    var j := Join(ps, ';');
    forall i | 0 <= i < |ps|
      ensures ';' !in ps[i] && '\n' !in ps[i]
    {
      DrawTextChars(ds[i]);
    }
    JoinAvoids(ps, ';', '\n');
    assert LineRest(j) == j;
    SplitJoin(ps, ';');
    forall i | 0 <= i < |ps|
      ensures ToRgbs(ps)[i] == Rgbs(ds)[i]
    {
      ToRgbWritten(ds[i]);
    }
  }

  /** A written game line parses back to its id and the counts of each of its draws. */
  lemma ParseGameWritten(id: nat, ds: seq<seq<Evidence>>)
    requires ds != []
    ensures ParseGame(GameText(id, ds)) == Some(Game(id, Rgbs(ds), Minimums(Rgbs(ds))))
  {
    PiecesRead(ds);
    HeaderRead(id, Join(Pieces(ds), ';'));
  }

  const Candidate := RGB(12, 13, 14)

  /** `day2a`: the sum of the ids of the games possible with the candidate;
      any malformed line makes the whole computation fail. */
  function Day2A(lines: seq<string>): (r: Option<nat>)
    ensures r.Some? <==> forall i :: 0 <= i < |lines| ==> ParseGame(lines[i]).Some?
    ensures lines == [] ==> r == Some(0)
  {
    if lines == [] then Some(0)
    else match (ParseGame(lines[0]), Day2A(lines[1..]))
      case (Some(g), Some(rest)) => Some((if Possible(g, Candidate) then g.id else 0) + rest)
      case _ => None
  }

  /** `day2b`: the sum of the powers of every game's minimums. */
  function Day2B(lines: seq<string>): (r: Option<nat>)
    ensures r.Some? <==> forall i :: 0 <= i < |lines| ==> ParseGame(lines[i]).Some?
    ensures lines == [] ==> r == Some(0)
  {
    if lines == [] then Some(0)
    else match (ParseGame(lines[0]), Day2B(lines[1..]))
      case (Some(g), Some(rest)) => Some(Power(g.minimums) + rest)
      case _ => None
  }

  /** The first draw of the sample's first game. */
  lemma ToRgbExample()
    ensures ToRgb(" 3 blue, 4 red") == RGB(4, 0, 3)
  {
    var es := [Evidence(3, Blue), Evidence(4, Red)];
    ExampleWritten(es);
    ToRgbWritten(es);
    ExampleCounts(es);
  }

  lemma ExampleWritten(es: seq<Evidence>)
    requires es == [Evidence(3, Blue), Evidence(4, Red)]
    ensures " 3 blue, 4 red" == " " + DrawText(es)
  {
    assert Item(es[0]) == "3 blue" by {
      assert Decimal(3) == "3";
    }
    assert Item(es[1]) == "4 red" by {
      assert Decimal(4) == "4";
    }
    assert es[1..] == [es[1]];
    assert DrawText([es[1]]) == "4 red";
  }

  lemma ExampleCounts(es: seq<Evidence>)
    requires es == [Evidence(3, Blue), Evidence(4, Red)]
    ensures RgbOf(es) == RGB(4, 0, 3)
  {
    assert LastCount(es, Green) == 0;
    assert es[..1] == [es[0]];
  }

  /** The draws of the five sample games, as `to_rgb` reads them. */
  const SampleDraws: seq<seq<RGB>> := [
    [RGB(4, 0, 3), RGB(1, 2, 6), RGB(0, 2, 0)],
    [RGB(0, 2, 1), RGB(1, 3, 4), RGB(0, 1, 1)],
    [RGB(20, 8, 6), RGB(4, 13, 5), RGB(1, 5, 0)],
    [RGB(3, 1, 6), RGB(6, 3, 0), RGB(14, 3, 15)],
    [RGB(6, 3, 1), RGB(1, 2, 2)]
  ]

  /** On the sample, the possible games are 1, 2 and 5 (ids summing to 8) and
      the minimum powers sum to 2286. */
  lemma SampleAnswers()
    ensures Within(Minimums(SampleDraws[0]), Candidate) && Within(Minimums(SampleDraws[1]), Candidate)
    ensures !Within(Minimums(SampleDraws[2]), Candidate) && !Within(Minimums(SampleDraws[3]), Candidate)
    ensures Within(Minimums(SampleDraws[4]), Candidate)
    ensures Power(Minimums(SampleDraws[0])) + Power(Minimums(SampleDraws[1]))
            + Power(Minimums(SampleDraws[2])) + Power(Minimums(SampleDraws[3]))
            + Power(Minimums(SampleDraws[4])) == 2286
  {
    assert Minimums(SampleDraws[0]) == RGB(4, 2, 6);
    assert Minimums(SampleDraws[1]) == RGB(1, 3, 4);
    assert Minimums(SampleDraws[2]) == RGB(20, 13, 6);
    assert Minimums(SampleDraws[3]) == RGB(14, 3, 15);
    assert Minimums(SampleDraws[4]) == RGB(6, 3, 2);
  }
}
