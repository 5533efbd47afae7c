/**
 * The Coloretto action card (coloretto/coloretto.js): a random row to add
 * a card to (or none) and a random row to take from.
 *
 * `Math.random()` is a parameter: a real number in [0, 1).
 */
module Coloretto {

  /** `Math.floor(Math.random() * n) + 1`: a roll in 1..n. */
  function RollOf(r: real, n: nat): (k: int)
    requires 0.0 <= r < 1.0 && n > 0
    ensures 1 <= k <= n
  {
    assert r * (n as real) < n as real by {
      assert (1.0 - r) * (n as real) > 0.0;
    }
    (r * (n as real)).Floor + 1
  }

  /** `addWhich`, in 1..4. */
  function AddWhich(r: real): (k: int)
    requires 0.0 <= r < 1.0
    ensures 1 <= k <= 4
  {
    RollOf(r, 4)
  }

  /** `takeWhich`, in 1..3. */
  function TakeWhich(r: real): (k: int)
    requires 0.0 <= r < 1.0
    ensures 1 <= k <= 3
  {
    RollOf(r, 3)
  }

  /** The first `switch`; a roll outside its cases appends nothing. */
  function AddLabel(k: int): string {
    match k
    case 1 => "none"
    case 2 => "left"
    case 3 => "middle"
    case 4 => "right"
    case _ => ""
  }

  /** The second `switch`; a roll outside its cases appends nothing. */
  function TakeLabel(k: int): string {
    match k
    case 1 => "left"
    case 2 => "middle"
    case 3 => "right"
    case _ => ""
  }

  /** Distinct rolls in range give distinct add labels, each one of the four. */
  lemma AddLabelInjective(a: int, b: int)
    requires 1 <= a <= 4 && 1 <= b <= 4
    ensures AddLabel(a) in {"none", "left", "middle", "right"}
    ensures AddLabel(a) == AddLabel(b) ==> a == b
  {
  }

  /** Distinct rolls in range give distinct take labels, and taking never says `none`. */
  lemma TakeLabelInjective(a: int, b: int)
    requires 1 <= a <= 3 && 1 <= b <= 3
    ensures TakeLabel(a) in {"left", "middle", "right"}
    ensures TakeLabel(a) != "none"
    ensures TakeLabel(a) == TakeLabel(b) ==> a == b
  {
  }

  /** The texts a card can show. */
  lemma CardTexts(rAdd: real, rTake: real)
    requires 0.0 <= rAdd < 1.0 && 0.0 <= rTake < 1.0
    ensures "Add to: " + AddLabel(AddWhich(rAdd))
      in {"Add to: none", "Add to: left", "Add to: middle", "Add to: right"}
    ensures "Take from: " + TakeLabel(TakeWhich(rTake))
      in {"Take from: left", "Take from: middle", "Take from: right"}
  {
    match AddWhich(rAdd) {
      case 1 => assert "Add to: " + "none" == "Add to: none";
      case 2 => assert "Add to: " + "left" == "Add to: left";
      case 3 => assert "Add to: " + "middle" == "Add to: middle";
      case 4 => assert "Add to: " + "right" == "Add to: right";
    }
    match TakeWhich(rTake) {
      case 1 => assert "Take from: " + "left" == "Take from: left";
      case 2 => assert "Take from: " + "middle" == "Take from: middle";
      case 3 => assert "Take from: " + "right" == "Take from: right";
    }
  }

  /** The `#add` and `#take` elements of the page. */
  class ActionCard {
    var addText: string
    var takeText: string

    constructor ()
      ensures addText == "" && takeText == ""
    {
      addText, takeText := "", "";
    }

    /** `selectAction`, with the two random values it draws. */
    method SelectAction(rAdd: real, rTake: real)
      requires 0.0 <= rAdd < 1.0 && 0.0 <= rTake < 1.0
      modifies this
      ensures addText == "Add to: " + AddLabel(AddWhich(rAdd))
      ensures takeText == "Take from: " + TakeLabel(TakeWhich(rTake))
    {
      var addWhich := AddWhich(rAdd);
      var takeWhich := TakeWhich(rTake);
      addText := "Add to: ";
      takeText := "Take from: ";
      match addWhich {
        case 1 => addText := addText + "none";
        case 2 => addText := addText + "left";
        case 3 => addText := addText + "middle";
        case 4 => addText := addText + "right";
        case _ =>
      }
      match takeWhich {
        case 1 => takeText := takeText + "left";
        case 2 => takeText := takeText + "middle";
        case 3 => takeText := takeText + "right";
        case _ =>
      }
    }
  }
}
