/**
 * Glovedle (projects/glovedle/index.js): guess a hidden word; every valid
 * guess is scored by the cosine similarity of its GloVe vector with the
 * target's, and the distinct guesses so far are listed best first.
 *
 * Vectors are sequences of integers. The similarity is an integer number of
 * thousandths standing for `getCosineSimilarity(...).toFixed(3)`; the
 * floating-point part of it (`Math.sqrt`, the division and the rounding) is
 * the parameter `scale`, applied to the dot product and the two sums of
 * squares that the script's loops compute.
 */
module Glovedle {
  import opened Wrappers
  import opened Text
  import Ranking

  type Vector = seq<int>

  /** The sum of `a[i] * b[i]` over the indices of `a`; `getDot` reads `b` at those indices only. */
  function Dot(a: Vector, b: Vector): int
    requires |a| <= |b|
    decreases |a|
  {
    if |a| == 0 then 0 else Dot(a[..|a| - 1], b) + a[|a| - 1] * b[|a| - 1]
  }

  /** The sum of `a[i] * a[i]`: the square of `getMagnitude(a)`. */
  function SumSquares(a: Vector): int
    decreases |a|
  {
    if |a| == 0 then 0 else SumSquares(a[..|a| - 1]) + a[|a| - 1] * a[|a| - 1]
  }

  /** The accumulating loop of `getDot`. */
  method GetDot(a: Vector, b: Vector) returns (sum: int)
    requires |a| <= |b|
    ensures sum == Dot(a, b)
  {
    sum := 0;
    for i := 0 to |a|
      invariant sum == Dot(a[..i], b)
    {
      assert a[..i + 1][..i] == a[..i];
      sum := sum + a[i] * b[i];
    }
    assert a[..|a|] == a;
  }

  /** The accumulating loop of `getMagnitude`, before `Math.sqrt`. */
  method GetSumSquares(a: Vector) returns (sum: int)
    ensures sum == SumSquares(a)
  {
    sum := 0;
    for i := 0 to |a|
      invariant sum == SumSquares(a[..i])
    {
      assert a[..i + 1][..i] == a[..i];
      sum := sum + a[i] * a[i];
    }
    assert a[..|a|] == a;
  }

  /** For vectors of one length the dot product does not depend on the order of its arguments. */
  lemma {:induction false} DotSymmetric(a: Vector, b: Vector)
    requires |a| == |b|
    ensures Dot(a, b) == Dot(b, a)
    decreases |a|
  {
    if |a| > 0 {
      var n := |a| - 1;
      DotPrefix(a[..n], b);
      DotPrefix(b[..n], a);
      DotSymmetric(a[..n], b[..n]);
    }
  }

  /** Only the first `|a|` entries of `b` take part in `Dot(a, b)`. */
  lemma {:induction false} DotPrefix(a: Vector, b: Vector)
    requires |a| <= |b|
    ensures Dot(a, b) == Dot(a, b[..|a|])
    decreases |a|
  {
    if |a| > 0 {
      var n := |a| - 1;
      DotPrefix(a[..n], b);
      DotPrefix(a[..n], b[..|a|]);
      assert b[..|a|][..n] == b[..n];
    }
  }

  /** The squared magnitude is the dot product of a vector with itself. */
  lemma {:induction false} DotSelf(a: Vector)
    ensures Dot(a, a) == SumSquares(a)
    decreases |a|
  {
    if |a| > 0 {
      var n := |a| - 1;
      DotPrefix(a[..n], a);
      DotSelf(a[..n]);
    }
  }

  /** The squared magnitude is never negative, and it is zero exactly for the zero vector. */
  lemma {:induction false} SumSquaresZero(a: Vector)
    ensures SumSquares(a) >= 0
    ensures SumSquares(a) == 0 <==> forall i | 0 <= i < |a| :: a[i] == 0
    decreases |a|
  {
    if |a| > 0 {
      var n := |a| - 1;
      SumSquaresZero(a[..n]);
      assert a[n] * a[n] >= 0;
      assert a[n] != 0 ==> a[n] * a[n] > 0;
      if forall i | 0 <= i < |a| :: a[i] == 0 {
        assert forall i | 0 <= i < n :: a[..n][i] == a[i];
      }
      if SumSquares(a) == 0 {
        assert forall i | 0 <= i < n :: a[..n][i] == 0;
      }
    }
  }

  /** `Math.floor(Math.random() * n)` for a random value `r` in [0, 1): an index below `n`. */
  function PickIndex(r: real, n: nat): (k: int)
    requires 0.0 <= r < 1.0 && n > 0
    ensures 0 <= k < n
  {
    assert r * (n as real) < n as real by {
      assert (1.0 - r) * (n as real) > 0.0;
    }
    (r * (n as real)).Floor
  }

  /** JavaScript's `toLowerCase`, on the ASCII letters. */
  function LowerChar(c: char): char {
    if 'A' <= c <= 'Z' then (c as int + 32) as char else c
  }

  function Lower(s: string): (r: string)
    ensures |r| == |s|
    ensures forall i | 0 <= i < |r| :: !('A' <= r[i] <= 'Z')
    ensures forall i | 0 <= i < |s| :: 'A' <= s[i] <= 'Z' ==> r[i] as int == s[i] as int + 32
    ensures forall i | 0 <= i < |s| :: !('A' <= s[i] <= 'Z') ==> r[i] == s[i]
  {
    seq(|s|, i requires 0 <= i < |s| => LowerChar(s[i]))
  }

  function Abs(m: int): nat {
    if m < 0 then -m else m
  }

  /** Three digits with leading zeros. */
  function Pad3(n: nat): string
    requires n < 1000
  {
    [DigitChar(n / 100), DigitChar(n / 10 % 10), DigitChar(n % 10)]
  }

  /** The magnitude `n` thousandths with three decimals. */
  function Fixed3(n: nat): string {
    Digits(n / 1000) + "." + Pad3(n % 1000)
  }

  /** `x.toFixed(3)` for the number `x` that is `m` thousandths. */
  function FormatMilli(m: int): string {
    (if m < 0 then "-" else "") + Fixed3(Abs(m))
  }

  /**
   * The number, in thousandths, that JavaScript reads back from a string of
   * that shape (as the comparator `b.similarity - a.similarity` does).
   */
  function MilliValue(s: string): Option<int> {
    var neg := |s| > 0 && s[0] == '-';
    var body := if neg then s[1..] else s;
    if |body| >= 5 && body[|body| - 4] == '.'
      && AllDigits(body[..|body| - 4]) && AllDigits(body[|body| - 3..])
    then
      var v := ParseDigits(body[..|body| - 4]) * 1000 + ParseDigits(body[|body| - 3..]);
      Some(if neg then -v else v)
    else None
  }

  lemma Pad3Value(n: nat)
    requires n < 1000
    ensures AllDigits(Pad3(n)) && ParseDigits(Pad3(n)) == n
  {
    var p := Pad3(n);
    assert p[..2][..1] == [p[0]];
    assert p[..2] == [p[0], p[1]];
    assert ParseDigits([p[0]]) == DigitValue(p[0]);
  }

  /**
   * The magnitude splits at its point into two numerals that read back as
   * `n`, and holds only digits and the point.
   */
  lemma Fixed3Parts(n: nat)
    ensures var body := Fixed3(n);
      && |body| >= 5 && body[|body| - 4] == '.' && IsDigit(body[0])
      && AllDigits(body[..|body| - 4]) && AllDigits(body[|body| - 3..])
      && ParseDigits(body[..|body| - 4]) * 1000 + ParseDigits(body[|body| - 3..]) == n
      && forall i | 0 <= i < |body| :: IsDigit(body[i]) || body[i] == '.'
  {
    var whole, frac := Digits(n / 1000), Pad3(n % 1000);
    DigitsRoundTrip(n / 1000);
    Pad3Value(n % 1000);
    var body := whole + "." + frac;
    assert body[..|body| - 4] == whole;
    assert body[|body| - 3..] == frac;
    assert body[0] == whole[0];
  }

  /**
   * The displayed similarity reads back as the similarity: ranking by the
   * number JavaScript parses from the `toFixed(3)` strings is ranking by
   * thousandths.
   */
  lemma FormatMilliRoundTrip(m: int)
    ensures MilliValue(FormatMilli(m)) == Some(m)
  {
    Fixed3Parts(Abs(m));
    MilliValueSigned(m < 0, Fixed3(Abs(m)), Abs(m));
  }

  /** A sign, or none, before a well-formed magnitude reads back as that signed number. */
  lemma MilliValueSigned(neg: bool, body: string, n: nat)
    requires |body| >= 5 && body[|body| - 4] == '.' && IsDigit(body[0])
    requires AllDigits(body[..|body| - 4]) && AllDigits(body[|body| - 3..])
    requires ParseDigits(body[..|body| - 4]) * 1000 + ParseDigits(body[|body| - 3..]) == n
    ensures MilliValue((if neg then "-" else "") + body) == Some(if neg then -(n as int) else n as int)
  {
    var s := (if neg then "-" else "") + body;
    if neg {
      assert s[0] == '-' && s[1..] == body;
    } else {
      assert s == body && s[0] != '-';
    }
  }

  /** Every character of the formatted similarity is a digit, the point or the sign. */
  lemma FormatMilliChars(m: int)
    ensures forall i | 0 <= i < |FormatMilli(m)| ::
      IsDigit(FormatMilli(m)[i]) || FormatMilli(m)[i] in "-."
  {
    Fixed3Parts(Abs(m));
  }

  /** An entry of the leaderboard: `{ guess, similarity }`. */
  datatype Guess = Guess(word: string, similarity: int)

  /** The comparator `(a, b) => b.similarity - a.similarity`: `a` may precede `b`. */
  function ByScore(a: Guess, b: Guess): bool {
    a.similarity >= b.similarity
  }

  lemma ByScoreTotalPreorder()
    ensures Ranking.TotalPreorder(ByScore)
  {
  }

  /** `guesses.map((x) => x.guess).find((x) => x == w)` is not undefined. */
  predicate Guessed(gs: seq<Guess>, w: string) {
    exists i | 0 <= i < |gs| :: gs[i].word == w
  }

  predicate DistinctWords(gs: seq<Guess>) {
    forall i, j | 0 <= i < j < |gs| :: gs[i].word != gs[j].word
  }

  /** The leaderboard after a valid guess: a new word is pushed and the list re-sorted. */
  function Record(gs: seq<Guess>, g: Guess): seq<Guess> {
    if Guessed(gs, g.word) then gs else Ranking.Sort(gs + [g], ByScore)
  }

  /** Inserting a word that is not on the leaderboard keeps its words distinct. */
  lemma InsertDistinct(gs: seq<Guess>, g: Guess)
    requires DistinctWords(gs) && !Guessed(gs, g.word)
    ensures DistinctWords(Ranking.Insert(gs, g, ByScore))
  {
    var k := Ranking.InsertPos(gs, g, ByScore);
    var r := Ranking.Insert(gs, g, ByScore);
    assert r == gs[..k] + [g] + gs[k..];
    forall i, j | 0 <= i < j < |r| ensures r[i].word != r[j].word {
      Ranking.InsertAt(gs, k, g, i);
      Ranking.InsertAt(gs, k, g, j);
    }
  }

  /**
   * Recording a guess keeps the leaderboard free of repeated words and in
   * non-increasing order of similarity; a repeated word leaves it as it was,
   * and a new word adds exactly that one entry.
   */
  lemma RecordPreserves(gs: seq<Guess>, g: Guess)
    requires DistinctWords(gs) && Ranking.Ranked(gs, ByScore)
    ensures var r := Record(gs, g);
      && DistinctWords(r)
      && Ranking.Ranked(r, ByScore)
      && (Guessed(gs, g.word) ==> r == gs)
      && (!Guessed(gs, g.word) ==>
            |r| == |gs| + 1 && multiset(r) == multiset(gs) + multiset{g})
  {
    if !Guessed(gs, g.word) {
      ByScoreTotalPreorder();
      Ranking.SortAppend(gs, g, ByScore);
      Ranking.SortOfRanked(gs, ByScore);
      assert Record(gs, g) == Ranking.Insert(gs, g, ByScore);
      Ranking.InsertRanked(gs, g, ByScore);
      InsertDistinct(gs, g);
    }
  }

  /** One line of the leaderboard; the target word is in bold. */
  function Line(g: Guess, target: string): string {
    (if g.word == target then "<strong>" else "")
      + g.word + ": " + FormatMilli(g.similarity)
      + (if g.word == target then "</strong>" else "")
  }

  function Lines(gs: seq<Guess>, target: string): (ls: seq<string>)
    ensures |ls| == |gs|
  {
    seq(|gs|, i requires 0 <= i < |gs| => Line(gs[i], target))
  }

  /** `guesses.map(...).join("<br>")`. */
  function Render(gs: seq<Guess>, target: string): string {
    Join(Lines(gs, target), "<br>")
  }

  /** A tag whose `<` is followed by anything but `b` holds no `<br>`. */
  lemma TagBreakFree(tag: string)
    requires |tag| >= 2 && tag[1] != 'b'
    requires forall i | 1 <= i < |tag| :: tag[i] != '<'
    ensures !Contains(tag, "<br>")
  {
    var rest := tag[1..];
    assert forall i | 0 <= i < |rest| :: rest[i] == tag[i + 1];
    FirstCharFree(rest, "<br>");
    assert !StartsWith(tag, "<br>") by {
      if |tag| >= 4 {
        assert tag[..4][1] == tag[1];
      }
    }
  }

  /** The text after the word: `": "` and the similarity, with no `<` in it. */
  lemma ScoreBreakFree(m: int)
    ensures !Contains(": " + FormatMilli(m), "<br>")
  {
    var t := ": " + FormatMilli(m);
    FormatMilliChars(m);
    assert forall i | 2 <= i < |t| :: t[i] == FormatMilli(m)[i - 2];
    FirstCharFree(t, "<br>");
  }

  /** The word followed by its score. */
  lemma PlainLineBreakFree(g: Guess)
    requires !Contains(g.word, "<br>")
    ensures !Contains(g.word + (": " + FormatMilli(g.similarity)), "<br>")
  {
    ScoreBreakFree(g.similarity);
    ConcatFree(g.word, ": " + FormatMilli(g.similarity), "<br>");
  }

  /** Text without `<br>` between a tag closed by `>` and a tag opened by `<`. */
  lemma WrappedBreakFree(open: string, plain: string, close: string)
    requires !Contains(open, "<br>") && !Contains(plain, "<br>") && !Contains(close, "<br>")
    requires |open| > 0 && open[|open| - 1] == '>' && |close| > 0 && close[0] == '<'
    ensures !Contains(open + plain + close, "<br>")
  {
    ConcatFree(open, plain, "<br>");
    ConcatFree(open + plain, close, "<br>");
  }

  /** The word and its score in bold. */
  lemma BoldLineBreakFree(plain: string)
    requires !Contains(plain, "<br>")
    ensures !Contains("<strong>" + plain + "</strong>", "<br>")
  {
    TagBreakFree("<strong>");
    TagBreakFree("</strong>");
    WrappedBreakFree("<strong>", plain, "</strong>");
  }

  /** A line holds a `<br>` only if the word does. */
  lemma LineBreakFree(g: Guess, target: string)
    requires !Contains(g.word, "<br>")
    ensures !Contains(Line(g, target), "<br>")
  {
    var plain := g.word + (": " + FormatMilli(g.similarity));
    PlainLineBreakFree(g);
    if g.word == target {
      assert Line(g, target) == "<strong>" + plain + "</strong>";
      BoldLineBreakFree(plain);
    } else {
      assert Line(g, target) == plain;
    }
  }

  /**
   * The rendered leaderboard splits at `<br>` into exactly one line per
   * entry, in list order, when no word contains `<br>`.
   */
  lemma RenderLines(gs: seq<Guess>, target: string)
    requires |gs| > 0
    requires forall i | 0 <= i < |gs| :: !Contains(gs[i].word, "<br>")
    ensures Split(Render(gs, target), "<br>") == Lines(gs, target)
  {
    forall k | 0 <= k < |gs| ensures !Contains(Lines(gs, target)[k], "<br>") {
      LineBreakFree(gs[k], target);
    }
    BreakTagShape();
    JoinSplit(Lines(gs, target), "<br>");
  }

  datatype Colour = Red | Green | Blue

  /** The `#result` element: its HTML and its colour. */
  datatype Message = Message(html: string, colour: Colour)

  function InvalidMessage(w: string): Message {
    Message("<strong>" + w + "</strong> is not a valid word!", Red)
  }

  /** The message for a valid word: green exactly for the target word. */
  function Verdict(w: string, similarity: int, target: string): (m: Message)
    ensures m.colour == Green <==> w == target
    ensures m.colour != Red
  {
    if w == target then Message("<strong>" + w + "</strong> is the correct word!", Green)
    else Message("<strong>" + w + "</strong> has a similarity of " + FormatMilli(similarity), Blue)
  }

  /**
   * What `await getWordVector(word)` gives: the `fetch` rejects (a network
   * failure), `null` (the response is not JSON, as for an unknown word), or
   * the vector.
   */
  datatype Fetched = Rejected | NotJson | Found(vector: Vector)

  /** One game session: the target and the state of the page. */
  class Game {
    const targetWord: string
    const targetVec: Vector
    /** The `guesses` array. */
    var guesses: seq<Guess>
    /** The value of the `#guess` text field. */
    var input: string
    /** The `#result` element; None until the first submission. */
    var result: Option<Message>
    /** The HTML of the `#results` element. */
    var board: string

    ghost predicate Valid()
      reads this
    {
      && DistinctWords(guesses)
      && Ranking.Ranked(guesses, ByScore)
      && board == Render(guesses, targetWord)
    }

    /** `main`: pick the target at random and fetch its vector. */
    constructor (targetWords: seq<string>, r: real, lookup: string -> Fetched)
      requires |targetWords| > 0 && 0.0 <= r < 1.0
      requires lookup(targetWords[PickIndex(r, |targetWords|)]).Found?
      ensures Valid()
      ensures targetWord == targetWords[PickIndex(r, |targetWords|)]
      ensures targetVec == lookup(targetWord).vector
      ensures guesses == [] && input == "" && result == None
    {
      targetWord := targetWords[PickIndex(r, |targetWords|)];
      targetVec := lookup(targetWords[PickIndex(r, |targetWords|)]).vector;
      guesses := [];
      input := "";
      result := None;
      board := "";
    }

    /** The player types into the text field. */
    method Type(text: string)
      modifies this
      ensures input == text
      ensures guesses == old(guesses) && result == old(result) && board == old(board)
    {
      input := text;
    }

    /**
     * The click handler of the submit button. `lookup` stands for
     * `await getWordVector(w)` and `scale` for the floating-point part of the
     * similarity. A rejected `fetch` ends the handler before it changes
     * anything, the field included.
     */
    method Submit(lookup: string -> Fetched, scale: (int, int, int) -> int)
      requires Valid()
      requires lookup(Lower(input)).Found? ==> |targetVec| <= |lookup(Lower(input)).vector|
      modifies this
      ensures Valid()
      ensures var w := Lower(old(input));
        match lookup(w)
        case Rejected =>
          && input == old(input) && result == old(result)
          && guesses == old(guesses) && board == old(board)
        case NotJson =>
          && input == ""
          && result == Some(InvalidMessage(w))
          && guesses == old(guesses) && board == old(board)
        case Found(v) =>
          var g := Guess(w, scale(Dot(targetVec, v), SumSquares(targetVec), SumSquares(v)));
          && input == ""
          && result == Some(Verdict(w, g.similarity, targetWord))
          && guesses == Record(old(guesses), g)
          && board == (if Guessed(old(guesses), w) then old(board) else Render(guesses, targetWord))
    {
      var w := Lower(input);
      var found := lookup(w);
      match found {
        case Rejected =>
          return;
        case NotJson =>
          result := Some(InvalidMessage(w));
        case Found(v) =>
          var dot := GetDot(targetVec, v);
          var targetSquares := GetSumSquares(targetVec);
          var guessSquares := GetSumSquares(v);
          var similarity := scale(dot, targetSquares, guessSquares);
          result := Some(Verdict(w, similarity, targetWord));
          RecordPreserves(guesses, Guess(w, similarity));
          if !Guessed(guesses, w) {
            guesses := Ranking.Sort(guesses + [Guess(w, similarity)], ByScore);
            board := Render(guesses, targetWord);
          }
      }
      input := "";
    }
  }
}
