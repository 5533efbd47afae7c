/**
 * The dice roller (cobdg/dice.js): four six-sided dice, two `w` and two
 * `c`, and a time die whose hourglass shows on two faces of six. Each die
 * is drawn by an image named after its face.
 *
 * `Math.random()` is a parameter: a real number in [0, 1).
 */
module Dice {
  import opened Text

  /** `Math.floor(Math.random() * 6) + 1`. */
  function Roll(r: real): (face: int)
    requires 0.0 <= r < 1.0
    ensures 1 <= face <= 6
  {
    assert r * 6.0 < 6.0 by {
      assert (1.0 - r) * 6.0 > 0.0;
    }
    (r * 6.0).Floor + 1
  }

  /** The time die: faces above 2 show 1, faces 1 and 2 show 2 (the hourglass). */
  function TimeFace(roll: int): (t: int)
    ensures t == 1 || t == 2
    ensures t == 2 <==> roll <= 2
  {
    if roll > 2 then 1 else 2
  }

  /** Exactly two of the six raw outcomes give the hourglass face. */
  lemma TimeFaceOdds()
    ensures |set k | 1 <= k <= 6 && TimeFace(k) == 2| == 2
  {
    var hourglass := set k | 1 <= k <= 6 && TimeFace(k) == 2;
    assert hourglass == {1, 2} by {
      forall k | k in hourglass ensures k in {1, 2} {
      }
      assert TimeFace(1) == 2 && TimeFace(2) == 2;
    }
  }

  /** The hourglass shows exactly for random values below one third. */
  lemma TimeFaceOfRoll(r: real)
    requires 0.0 <= r < 1.0
    ensures TimeFace(Roll(r)) == 2 <==> r < 1.0 / 3.0
  {
    var f := (r * 6.0).Floor;
    assert f as real <= r * 6.0 < f as real + 1.0;
    if r < 1.0 / 3.0 {
      assert r * 6.0 < 2.0;
    } else {
      assert r * 6.0 >= 2.0;
    }
  }

  /** `prefix + face.toString() + ".png"`. */
  function ImageSrc(prefix: string, face: nat): string {
    prefix + Digits(face) + ".png"
  }

  /** Distinct faces of a die give distinct image names. */
  lemma ImageSrcInjective(prefix: string, a: nat, b: nat)
    requires ImageSrc(prefix, a) == ImageSrc(prefix, b)
    ensures a == b
  {
    var sa, sb := ImageSrc(prefix, a), ImageSrc(prefix, b);
    assert Digits(a) == sa[|prefix|..|sa| - 4];
    assert Digits(b) == sb[|prefix|..|sb| - 4];
    DigitsRoundTrip(a);
    DigitsRoundTrip(b);
  }

  /** The time die is only ever drawn as `t1.png` or `t2.png`. */
  lemma TimeImage(r: real)
    requires 0.0 <= r < 1.0
    ensures ImageSrc("t", TimeFace(Roll(r))) in {"t1.png", "t2.png"}
  {
    var t := TimeFace(Roll(r));
    if t == 1 {
      assert Digits(1) == "1";
      assert ImageSrc("t", 1) == "t" + "1" + ".png" == "t1.png";
    } else {
      assert Digits(2) == "2";
      assert ImageSrc("t", 2) == "t" + "2" + ".png" == "t2.png";
    }
  }

  /** The five die images of the page. */
  class DiceBoard {
    var w1Src: string
    var w2Src: string
    var c1Src: string
    var c2Src: string
    var tSrc: string

    constructor ()
      ensures w1Src == "" && w2Src == "" && c1Src == "" && c2Src == "" && tSrc == ""
    {
      w1Src, w2Src, c1Src, c2Src, tSrc := "", "", "", "", "";
    }

    /** `rollDice`, with the five random values it draws. */
    method RollDice(r1: real, r2: real, r3: real, r4: real, r5: real)
      requires 0.0 <= r1 < 1.0 && 0.0 <= r2 < 1.0 && 0.0 <= r3 < 1.0
      requires 0.0 <= r4 < 1.0 && 0.0 <= r5 < 1.0
      modifies this
      ensures w1Src == ImageSrc("w", Roll(r1)) && w2Src == ImageSrc("w", Roll(r2))
      ensures c1Src == ImageSrc("c", Roll(r3)) && c2Src == ImageSrc("c", Roll(r4))
      ensures tSrc == ImageSrc("t", TimeFace(Roll(r5)))
    {
      var w1Roll := Roll(r1);
      var w2Roll := Roll(r2);
      var c1Roll := Roll(r3);
      var c2Roll := Roll(r4);
      var tRoll := Roll(r5);
      if tRoll > 2 {
        tRoll := 1;
      } else {
        tRoll := 2;
      }
      w1Src := "w" + Digits(w1Roll) + ".png";
      w2Src := "w" + Digits(w2Roll) + ".png";
      c1Src := "c" + Digits(c1Roll) + ".png";
      c2Src := "c" + Digits(c2Roll) + ".png";
      tSrc := "t" + Digits(tRoll) + ".png";
    }
  }
}
