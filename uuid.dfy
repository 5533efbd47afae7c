/**
 * The UUID generator page (projects/uuid/index.js): the generate button
 * fills the `#uuid` element with `amount` fresh UUIDs separated by `<br>`;
 * the copy and download buttons hand out the same list with newlines.
 *
 * `uuidv4` is the parameter `uuid`, the UUID of the `i`-th call. The value
 * of the `#amount` field is the number JavaScript reads from it, None for
 * `NaN`.
 */
module Uuid {
  import opened Wrappers
  import opened Text

  /** `amount > 0`: false for `NaN`. */
  predicate Positive(amount: Option<real>) {
    amount.Some? && amount.value > 0.0
  }

  /** How many passes `for (i = 0; i < amount; i++)` makes: the least count not below `amount`. */
  function Count(amount: real): (n: nat)
    ensures amount <= n as real
    ensures n > 0 ==> ((n - 1) as real) < amount
  {
    if amount <= 0.0 then 0
    else if amount.Floor as real == amount then amount.Floor
    else amount.Floor + 1
  }

  /** A whole amount gives exactly that many UUIDs. */
  lemma CountWhole(n: nat)
    ensures Count(n as real) == n
  {
    assert (n as real).Floor == n;
  }

  /** The push loop of the generate handler. */
  method MakeUuids(amount: real, uuid: nat -> string) returns (uuids: seq<string>)
    ensures |uuids| == Count(amount)
    ensures forall i | 0 <= i < |uuids| :: uuids[i] == uuid(i)
  {
    uuids := [];
    var i: nat := 0;
    while (i as real) < amount
      invariant i <= Count(amount) && |uuids| == i
      invariant forall k | 0 <= k < i :: uuids[k] == uuid(k)
      decreases Count(amount) - i
    {
      uuids := uuids + [uuid(i)];
      i := i + 1;
    }
  }

  /** The text the copy and download buttons use: every `<br>` becomes a newline. */
  function PlainText(html: string): string {
    ReplaceAll(html, "<br>", "\n")
  }

  /**
   * When no UUID holds `<br>`, the plain text is the UUIDs joined by
   * newlines; when none holds a newline either, splitting it at newlines
   * gives the UUIDs back.
   */
  lemma PlainTextRoundTrip(uuids: seq<string>)
    requires forall i | 0 <= i < |uuids| :: !Contains(uuids[i], "<br>")
    ensures PlainText(Join(uuids, "<br>")) == Join(uuids, "\n")
    ensures |uuids| > 0 && (forall i | 0 <= i < |uuids| :: '\n' !in uuids[i]) ==>
      Split(PlainText(Join(uuids, "<br>")), "\n") == uuids
  {
    BreakTagShape();
    ReplaceJoin(uuids, "<br>", "\n");
    if |uuids| > 0 && forall i | 0 <= i < |uuids| :: '\n' !in uuids[i] {
      LinesSplit(uuids);
    }
  }

  /** Lines without newlines, joined by newlines, split back into those lines. */
  lemma LinesSplit(lines: seq<string>)
    requires |lines| > 0 && forall i | 0 <= i < |lines| :: '\n' !in lines[i]
    ensures Split(Join(lines, "\n"), "\n") == lines
  {
    forall i | 0 <= i < |lines| ensures !Contains(lines[i], "\n") {
      ContainsChar(lines[i], '\n');
    }
    JoinSplit(lines, "\n");
  }

  predicate HexOrDash(c: char) {
    '0' <= c <= '9' || 'a' <= c <= 'f' || c == '-'
  }

  /** The 36 characters of a version-4 UUID in its textual form. */
  predicate UuidShaped(u: string) {
    |u| == 36 && forall i | 0 <= i < |u| :: HexOrDash(u[i])
  }

  /** The list the page shows is copied back, UUID for UUID, one per line. */
  lemma UuidsRoundTrip(uuids: seq<string>)
    requires |uuids| > 0 && forall i | 0 <= i < |uuids| :: UuidShaped(uuids[i])
    ensures PlainText(Join(uuids, "<br>")) == Join(uuids, "\n")
    ensures Split(PlainText(Join(uuids, "<br>")), "\n") == uuids
  {
    forall i | 0 <= i < |uuids| ensures !Contains(uuids[i], "<br>") && '\n' !in uuids[i] {
      FirstCharFree(uuids[i], "<br>");
    }
    PlainTextRoundTrip(uuids);
  }

  const DownloadName := "uuids.txt"

  /** A file offered for download. */
  datatype Download = Download(name: string, text: string)

  /** The `#uuid` element of the page. */
  class UuidPanel {
    /** Its `innerHTML`. */
    var display: string

    /** Loading the page: the element starts empty and `gen_btn.click()` runs the generate handler once. */
    constructor (amount: Option<real>, uuid: nat -> string)
      ensures !Positive(amount) ==> display == ""
      ensures Positive(amount) ==>
        display == Join(seq(Count(amount.value), (i: int) requires 0 <= i => uuid(i)), "<br>")
    {
      display := "";
      if Positive(amount) {
        var uuids := MakeUuids(amount.value, uuid);
        assert uuids == seq(Count(amount.value), (i: int) requires 0 <= i => uuid(i));
        display := Join(uuids, "<br>");
      }
    }

    /** The generate handler: nothing happens unless `amount > 0`. */
    method Generate(amount: Option<real>, uuid: nat -> string)
      modifies this
      ensures !Positive(amount) ==> display == old(display)
      ensures Positive(amount) ==>
        display == Join(seq(Count(amount.value), (i: int) requires 0 <= i => uuid(i)), "<br>")
    {
      if Positive(amount) {
        var uuids := MakeUuids(amount.value, uuid);
        assert uuids == seq(Count(amount.value), (i: int) requires 0 <= i => uuid(i));
        display := Join(uuids, "<br>");
      }
    }

    /** The copy handler: the text written to the clipboard. */
    method Copy() returns (text: string)
      ensures text == PlainText(display)
    {
      text := ReplaceAll(display, "<br>", "\n");
    }

    /** The download handler: the file `uuids.txt` holding the plain text. */
    method Save() returns (file: Download)
      ensures file.name == DownloadName
      ensures file.text == PlainText(display)
    {
      var blob := ReplaceAll(display, "<br>", "\n");
      file := Download(DownloadName, blob);
    }
  }
}
