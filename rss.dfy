/**
 * The RSS feed builder (format_rss.py): one `<item>` per post in `source`,
 * newest first, inside the channel template of the blog.
 *
 * The directory listing and the file contents are the `posts` argument;
 * `strptime(..., "%Y-%m-%d").strftime("%a, %d %b %Y %H:%M:%S")` is the
 * parameter `formatDate`, None where `strptime` raises.
 */
module Rss {
  import opened Wrappers
  import opened Text
  import Ranking

  /** A file of the `source` directory: its name and its text. */
  datatype Post = Post(name: string, content: string)

  /** The dictionary built for each post. */
  datatype Item = Item(title: string, description: string, link: string, date: string, isoDate: string)

  /** Where the script stops with an exception, and for which post. */
  datatype FeedError =
    | NoFirstLine(post: string)   // `splitlines()[0]` of an empty file
    | NoDate(post: string)        // `re.search` found nothing: `.group` of None
    | BadDate(post: string)       // `strptime` rejects the date
    | NoDescription(post: string) // fewer than five lines: `split("\n")[4]`
    | NoPosts                     // `items[0]` of an empty list

  // ---------------------------------------------------------------- title

  /** The line boundaries of Python's `str.splitlines`. */
  predicate LineBoundary(c: char) {
    c == '\n' || c == '\r' || c as int in {0x0B, 0x0C, 0x1C, 0x1D, 0x1E, 0x85, 0x2028, 0x2029}
  }

  /** The index of the first line boundary, or the length when there is none. */
  function LineEnd(s: string): (k: nat)
    decreases |s|
    ensures k <= |s|
    ensures forall i | 0 <= i < k :: !LineBoundary(s[i])
    ensures k < |s| ==> LineBoundary(s[k])
  {
    if |s| == 0 || LineBoundary(s[0]) then 0 else 1 + LineEnd(s[1..])
  }

  /** `s.splitlines()[0]`; None where the list is empty, that is for the empty string. */
  function FirstLine(s: string): (r: Option<string>)
    ensures r.None? <==> |s| == 0
    ensures r.Some? ==> StartsWith(s, r.value) && forall i | 0 <= i < |r.value| :: !LineBoundary(r.value[i])
    ensures r.Some? && |r.value| < |s| ==> LineBoundary(s[|r.value|])
  {
    if |s| == 0 then None else Some(s[..LineEnd(s)])
  }

  /** `line.split("# ")[-1]`. */
  function Title(line: string): string {
    Last(Split(line, "# "))
  }

  // ---------------------------------------------------------------- date

  /**
   * The pattern `(?<=<span class="date">)(.*?)(?=</span>)` is a look-behind
   * for an opening tag, a lazy run of non-newline characters and a
   * look-ahead for a closing tag; the search is stated for any two tags and
   * used with these.
   */
  const DateOpen := "<span class=\"date\">"
  const DateClose := "</span>"

  /**
   * The lazy `(.*?)(?=close)` started at `q`: the first position from `q` on
   * where `close` begins, provided no newline (which `.` does not match)
   * comes before it.
   */
  function LazyEnd(s: string, q: nat, close: string): (e: Option<nat>)
    requires q <= |s|
    decreases |s| - q
    ensures e.Some? ==> q <= e.value <= |s| && StartsWith(s[e.value..], close)
  {
    if StartsWith(s[q..], close) then Some(q)
    else if q == |s| || s[q] == '\n' then None
    else LazyEnd(s, q + 1, close)
  }

  /** The lazy match crosses neither a newline nor an earlier `close`. */
  lemma {:induction false} LazyEndSpan(s: string, q: nat, close: string)
    requires q <= |s| && LazyEnd(s, q, close).Some?
    ensures forall k | q <= k < LazyEnd(s, q, close).value :: s[k] != '\n' && !StartsWith(s[k..], close)
    decreases |s| - q
  {
    if !StartsWith(s[q..], close) {
      LazyEndSpan(s, q + 1, close);
    }
  }

  /** A `close` reachable without crossing a newline is found, at that position or before. */
  lemma {:induction false} LazyEndFound(s: string, q: nat, e: nat, close: string)
    requires q <= e <= |s| && StartsWith(s[e..], close)
    requires forall k | q <= k < e :: s[k] != '\n'
    ensures LazyEnd(s, q, close).Some? && LazyEnd(s, q, close).value <= e
    decreases e - q
  {
    if q < e && !StartsWith(s[q..], close) {
      LazyEndFound(s, q + 1, e, close);
    }
  }

  /**
   * `re.search` with the look-behind `(?<=open)`: the first position from
   * `p` on that follows `open` and from which the lazy match succeeds, with
   * the end of that match.
   */
  function TagSearch(s: string, p: nat, open: string, close: string): (r: Option<(nat, nat)>)
    requires p <= |s|
    decreases |s| - p
    ensures r.Some? ==>
      && p <= r.value.0 <= r.value.1 <= |s|
      && EndsWith(s[..r.value.0], open)
      && LazyEnd(s, r.value.0, close) == Some(r.value.1)
  {
    if EndsWith(s[..p], open) && LazyEnd(s, p, close).Some? then Some((p, LazyEnd(s, p, close).value))
    else if p == |s| then None
    else TagSearch(s, p + 1, open, close)
  }

  /** A match start is a position after `open` from which a `close` is reachable. */
  predicate MatchStart(s: string, p: nat, open: string, close: string)
    requires p <= |s|
  {
    EndsWith(s[..p], open) && LazyEnd(s, p, close).Some?
  }

  /**
   * The search returns the leftmost match start from `p` on, and it finds
   * none only when there is none.
   */
  lemma {:induction false} TagSearchLeftmost(s: string, p: nat, open: string, close: string)
    requires p <= |s|
    ensures TagSearch(s, p, open, close).None? ==> forall k | p <= k <= |s| :: !MatchStart(s, k, open, close)
    ensures TagSearch(s, p, open, close).Some? ==>
      && MatchStart(s, TagSearch(s, p, open, close).value.0, open, close)
      && forall k | p <= k < TagSearch(s, p, open, close).value.0 :: !MatchStart(s, k, open, close)
    decreases |s| - p
  {
    if !MatchStart(s, p, open, close) && p < |s| {
      assert TagSearch(s, p, open, close) == TagSearch(s, p + 1, open, close);
      TagSearchLeftmost(s, p + 1, open, close);
    }
  }

  /** `re.search(...).group(0)`; None where the search finds no match. */
  function IsoDate(content: string): Option<string> {
    match TagSearch(content, 0, DateOpen, DateClose)
    case None => None
    case Some((a, b)) => Some(content[a..b])
  }

  /**
   * The matched text sits right after `open` and right before `close`, on
   * one line, and holds no `close` itself.
   */
  lemma MatchBetweenTags(content: string, open: string, close: string)
    requires |close| > 0 && TagSearch(content, 0, open, close).Some?
    ensures var (a, b) := TagSearch(content, 0, open, close).value;
      var d := content[a..b];
      && EndsWith(content[..a], open)
      && StartsWith(content[b..], close)
      && '\n' !in d
      && !Contains(d, close)
  {
    var a, b := TagSearch(content, 0, open, close).value.0, TagSearch(content, 0, open, close).value.1;
    var d := content[a..b];
    LazyEndSpan(content, a, close);
    assert forall k | 0 <= k < |d| :: d[k] == content[a + k];
    if Contains(d, close) {
      var k := ContainsOccurrence(d, close);
      InnerOccurrence(content, a, b, k, close);
      assert false;
    }
  }

  /**
   * `d` is found at `p` in `s`, right after `open` and right before `close`,
   * and holds neither a newline nor `close`.
   */
  predicate TagAround(s: string, p: int, d: string, open: string, close: string) {
    && 0 <= p <= |s| - |d|
    && EndsWith(s[..p], open)
    && s[p..p + |d|] == d
    && StartsWith(s[p + |d|..], close)
    && '\n' !in d
    && !Contains(d, close)
  }

  /** The match of the search, read off at its start. */
  lemma MatchAround(content: string, open: string, close: string)
    requires |close| > 0 && TagSearch(content, 0, open, close).Some?
    ensures var (a, b) := TagSearch(content, 0, open, close).value;
      TagAround(content, a, content[a..b], open, close)
  {
    var a, b := TagSearch(content, 0, open, close).value.0, TagSearch(content, 0, open, close).value.1;
    MatchBetweenTags(content, open, close);
    assert content[a..a + (b - a)] == content[a..b];
  }

  /**
   * The extracted date sits right after `<span class="date">` and right
   * before `</span>`, on one line, and holds no `</span>` itself.
   */
  lemma IsoDateBetweenTags(content: string)
    requires IsoDate(content).Some?
    ensures exists p :: TagAround(content, p, IsoDate(content).value, DateOpen, DateClose)
  {
    var r := TagSearch(content, 0, DateOpen, DateClose).value;
    assert IsoDate(content).value == content[r.0..r.1];
    MatchAround(content, DateOpen, DateClose);
  }

  /** An occurrence inside `s[a..b]` is an occurrence in `s` that starts before `b`. */
  lemma InnerOccurrence(s: string, a: nat, b: nat, k: nat, pat: string)
    ensures a <= b <= |s| && k <= b - a && StartsWith(s[a..b][k..], pat) ==>
      a + k < b || |pat| == 0
    ensures a <= b <= |s| && k <= b - a && StartsWith(s[a..b][k..], pat) ==>
      StartsWith(s[a + k..], pat)
  {
    if a <= b <= |s| && k <= b - a && StartsWith(s[a..b][k..], pat) {
      assert s[a..b][k..][..|pat|] == s[a + k..][..|pat|];
    }
  }

  /**
   * A date between the opening tag and a later `</span>` on the same line is
   * always found.
   */
  lemma IsoDateFound(content: string, p: nat, e: nat)
    requires p <= e <= |content|
    requires EndsWith(content[..p], DateOpen) && StartsWith(content[e..], DateClose)
    requires forall k | p <= k < e :: content[k] != '\n'
    ensures IsoDate(content).Some?
  {
    LazyEndFound(content, p, e, DateClose);
    assert MatchStart(content, p, DateOpen, DateClose);
    TagSearchLeftmost(content, 0, DateOpen, DateClose);
  }

  // ---------------------------------------------------------------- item

  const PostsUrl := "https://www.bentrevett.com/posts/"

  /** `f"https://www.bentrevett.com/posts/{post.split('.')[0]}.html"`. */
  function Link(name: string): string {
    PostsUrl + Split(name, ".")[0] + ".html"
  }

  /**
   * The link names the file up to its first `.`: the whole name when it has
   * no `.`, and otherwise the text before the first `.`.
   */
  lemma LinkStem(name: string)
    ensures var stem := Split(name, ".")[0];
      && Link(name) == PostsUrl + stem + ".html"
      && StartsWith(name, stem)
      && '.' !in stem
      && ('.' !in name ==> stem == name)
      && ('.' in name ==> |stem| < |name| && name[|stem|] == '.')
  {
    var stem := Split(name, ".")[0];
    FirstPiece(name, ".");
    ContainsChar(stem, '.');
    ContainsChar(name, '.');
    if |stem| < |name| {
      assert name[|stem|..][..1] == ".";
    } else {
      assert name[..|stem|] == name;
    }
  }

  /** The body of the loop over the posts. */
  function ExtractItem(post: Post, formatDate: string -> Option<string>): Result<Item, FeedError> {
    match FirstLine(post.content)
    case None => Failure(NoFirstLine(post.name))
    case Some(first) =>
      match IsoDate(post.content)
      case None => Failure(NoDate(post.name))
      case Some(iso) =>
        match formatDate(iso)
        case None => Failure(BadDate(post.name))
        case Some(date) =>
          var lines := Split(post.content, "\n");
          if |lines| < 5 then Failure(NoDescription(post.name))
          else Success(Item(Title(first), lines[4], Link(post.name), date, iso))
  }

  /**
   * A post yields an item exactly when it is not empty, has a date the date
   * parser accepts and has at least five lines. The title is the text after
   * the last `# ` of the first line, the description is the fifth line, and
   * neither holds a newline.
   */
  lemma ExtractItemFields(post: Post, formatDate: string -> Option<string>)
    ensures var r := ExtractItem(post, formatDate);
      var lines := Split(post.content, "\n");
      && (r.Success? <==>
            && |post.content| > 0
            && IsoDate(post.content).Some?
            && formatDate(IsoDate(post.content).value).Some?
            && |lines| >= 5)
      && (r.Success? ==>
            var it := r.value;
            var first := FirstLine(post.content).value;
            && EndsWith(first, it.title)
            && !Contains(it.title, "# ")
            && SeparatorBefore(first, it.title, "# ")
            && it.description == lines[4]
            && Join(lines, "\n") == post.content
            && '\n' !in it.title && '\n' !in it.description
            && it.link == Link(post.name)
            && it.isoDate == IsoDate(post.content).value
            && it.date == formatDate(it.isoDate).value)
  {
    if |post.content| > 0 {
      var first := FirstLine(post.content).value;
      assert '\n' !in first by {
        forall i | 0 <= i < |first| ensures first[i] != '\n' {
          assert !LineBoundary(first[i]);
        }
      }
      LastPieceFacts(first, "# ");
      LinesFacts(post.content);
    }
  }

  /** The pieces between newlines hold no newline and join back into the text. */
  lemma LinesFacts(content: string)
    ensures var lines := Split(content, "\n");
      && Join(lines, "\n") == content
      && forall k | 0 <= k < |lines| :: '\n' !in lines[k]
  {
    var lines := Split(content, "\n");
    SplitJoin(content, "\n");
    SplitPiecesFree(content, "\n");
    forall k | 0 <= k < |lines| ensures '\n' !in lines[k] {
      ContainsChar(lines[k], '\n');
    }
  }

  /** The first loop: the items of the posts in listing order, or the first failure. */
  function ExtractAll(posts: seq<Post>, formatDate: string -> Option<string>): Result<seq<Item>, FeedError> {
    Traverse(posts, (post: Post) => ExtractItem(post, formatDate))
  }

  /**
   * The loop succeeds exactly when every post yields an item, and then
   * holds one item per post in listing order; otherwise it stops at the
   * first post that fails, with that post's error.
   */
  lemma ExtractAllSpec(posts: seq<Post>, formatDate: string -> Option<string>)
    ensures var r := ExtractAll(posts, formatDate);
      && (r.Success? <==> forall i | 0 <= i < |posts| :: ExtractItem(posts[i], formatDate).Success?)
      && (r.Success? ==>
            && |r.value| == |posts|
            && forall i | 0 <= i < |posts| :: r.value[i] == ExtractItem(posts[i], formatDate).value)
      && (r.Failure? ==> exists k | 0 <= k < |posts| ::
            && ExtractItem(posts[k], formatDate) == Failure(r.error)
            && forall i | 0 <= i < k :: ExtractItem(posts[i], formatDate).Success?)
  {
    var step := (post: Post) => ExtractItem(post, formatDate);
    TraverseSuccess(posts, step);
    if ExtractAll(posts, formatDate).Failure? {
      TraverseFirstFailure(posts, step);
    }
  }

  /** The first loop of the script: read each post, extract its item, append it. */
  method CollectItems(posts: seq<Post>, formatDate: string -> Option<string>)
    returns (r: Result<seq<Item>, FeedError>)
    ensures r == ExtractAll(posts, formatDate)
  {
    var step := (post: Post) => ExtractItem(post, formatDate);
    var items: seq<Item> := [];
    for i := 0 to |posts|
      invariant Traverse(posts[..i], step) == Success(items)
    {
      TraverseNext(posts, i, step, items);
      var it := step(posts[i]);
      if it.Failure? {
        r := Failure(it.error);
        TraversePrefixFailure(posts, i + 1, step);
        return;
      }
      items := items + [it.value];
    }
    assert posts[..|posts|] == posts;
    r := Success(items);
  }

  // ---------------------------------------------------------------- order

  /** `sorted(..., key=iso_date, reverse=True)`: `a` may come before `b`. */
  function NewerOrSame(a: Item, b: Item): bool {
    LexLe(b.isoDate, a.isoDate)
  }

  lemma NewerOrSameTotalPreorder()
    ensures Ranking.TotalPreorder(NewerOrSame)
  {
    forall a: Item, b: Item ensures NewerOrSame(a, b) || NewerOrSame(b, a) {
      LexTotal(a.isoDate, b.isoDate);
    }
    forall a: Item, b: Item, c: Item | NewerOrSame(a, b) && NewerOrSame(b, c)
      ensures NewerOrSame(a, c)
    {
      LexTransitive(c.isoDate, b.isoDate, a.isoDate);
    }
  }

  /** Python's sort is stable, also with `reverse=True`. */
  function SortItems(items: seq<Item>): seq<Item> {
    Ranking.Sort(items, NewerOrSame)
  }

  /**
   * The sorted items are the same items, by non-increasing ISO date; the
   * first one is the newest, whose date becomes the channel's date.
   */
  lemma SortItemsNewestFirst(items: seq<Item>)
    ensures var s := SortItems(items);
      && multiset(s) == multiset(items)
      && (forall i, j | 0 <= i < j < |s| :: LexLe(s[j].isoDate, s[i].isoDate))
      && (|s| > 0 ==> forall i | 0 <= i < |items| :: LexLe(items[i].isoDate, s[0].isoDate))
  {
    var s := SortItems(items);
    NewerOrSameTotalPreorder();
    Ranking.SortRanked(items, NewerOrSame);
    assert Ranking.Ranked(s, NewerOrSame);
    if |s| > 0 {
      forall i | 0 <= i < |items| ensures LexLe(items[i].isoDate, s[0].isoDate) {
        assert items[i] in multiset(s);
        var j :| 0 <= j < |s| && s[j] == items[i];
        if j > 0 {
          assert NewerOrSame(s[0], s[j]);
        } else {
          LexTotal(s[0].isoDate, s[0].isoDate);
        }
      }
    }
  }

  // ---------------------------------------------------------------- serialise

  /** The seven lines of one `<item>` block, without their newlines. */
  function ItemLines(it: Item): (ls: seq<string>)
    ensures |ls| == 7
  {
    [ "<item>",
      "\t<title>" + it.title + "</title>",
      "\t<description>" + it.description + "</description>",
      "\t<link>" + it.link + "</link>",
      "\t<guid>" + it.link + "</guid>",
      "\t<pubDate>" + it.date + "</pubDate>",
      "</item>" ]
  }

  /** `rss_items` after one pass of the second loop over `it`. */
  function AppendItem(xml: string, it: Item): string {
    xml
      + ("<item>" + "\n")
      + ("\t<title>" + it.title + "</title>" + "\n")
      + ("\t<description>" + it.description + "</description>" + "\n")
      + ("\t<link>" + it.link + "</link>" + "\n")
      + ("\t<guid>" + it.link + "</guid>" + "\n")
      + ("\t<pubDate>" + it.date + "</pubDate>" + "\n")
      + ("</item>" + "\n")
  }

  /** `rss_items` after the loop over `items`. */
  function ItemsXml(items: seq<Item>): string
    decreases |items|
  {
    if |items| == 0 then "" else AppendItem(ItemsXml(items[..|items| - 1]), items[|items| - 1])
  }

  /** The second loop of the script: one `<item>` block per item, in order. */
  method SerializeItems(items: seq<Item>) returns (xml: string)
    ensures xml == ItemsXml(items)
  {
    xml := "";
    for i := 0 to |items|
      invariant xml == ItemsXml(items[..i])
    {
      assert items[..i + 1][..i] == items[..i];
      xml := xml + ("<item>" + "\n");
      xml := xml + ("\t<title>" + items[i].title + "</title>" + "\n");
      xml := xml + ("\t<description>" + items[i].description + "</description>" + "\n");
      xml := xml + ("\t<link>" + items[i].link + "</link>" + "\n");
      xml := xml + ("\t<guid>" + items[i].link + "</guid>" + "\n");
      xml := xml + ("\t<pubDate>" + items[i].date + "</pubDate>" + "\n");
      xml := xml + ("</item>" + "\n");
    }
    assert items[..|items|] == items;
  }

  /** Each line followed by a newline. */
  function Unlines(ls: seq<string>): string
    decreases |ls|
  {
    if |ls| == 0 then "" else ls[0] + "\n" + Unlines(ls[1..])
  }

  lemma {:induction false} UnlinesJoin(ls: seq<string>)
    ensures Unlines(ls) == Join(ls + [""], "\n")
    decreases |ls|
  {
    if |ls| > 0 {
      UnlinesJoin(ls[1..]);
      assert (ls + [""])[1..] == ls[1..] + [""];
    }
  }

  lemma {:induction false} UnlinesAppend(a: seq<string>, b: seq<string>)
    ensures Unlines(a + b) == Unlines(a) + Unlines(b)
    decreases |a|
  {
    if |a| > 0 {
      assert (a + b)[1..] == a[1..] + b;
      UnlinesAppend(a[1..], b);
    } else {
      assert a + b == b;
    }
  }

  /** The seven lines of a block, each ended by a newline. */
  lemma Unlines7(l0: string, l1: string, l2: string, l3: string, l4: string, l5: string, l6: string)
    ensures Unlines([l0, l1, l2, l3, l4, l5, l6])
      == l0 + "\n" + (l1 + "\n" + (l2 + "\n" + (l3 + "\n" + (l4 + "\n" + (l5 + "\n" + (l6 + "\n" + ""))))))
  {
    assert Unlines([l6]) == l6 + "\n" + "" by { assert [l6][1..] == []; }
    assert Unlines([l5, l6]) == l5 + "\n" + Unlines([l6]) by { assert [l5, l6][1..] == [l6]; }
    assert Unlines([l4, l5, l6]) == l4 + "\n" + Unlines([l5, l6]) by { assert [l4, l5, l6][1..] == [l5, l6]; }
    assert Unlines([l3, l4, l5, l6]) == l3 + "\n" + Unlines([l4, l5, l6]) by {
      assert [l3, l4, l5, l6][1..] == [l4, l5, l6];
    }
    assert Unlines([l2, l3, l4, l5, l6]) == l2 + "\n" + Unlines([l3, l4, l5, l6]) by {
      assert [l2, l3, l4, l5, l6][1..] == [l3, l4, l5, l6];
    }
    assert Unlines([l1, l2, l3, l4, l5, l6]) == l1 + "\n" + Unlines([l2, l3, l4, l5, l6]) by {
      assert [l1, l2, l3, l4, l5, l6][1..] == [l2, l3, l4, l5, l6];
    }
    assert [l0, l1, l2, l3, l4, l5, l6][1..] == [l1, l2, l3, l4, l5, l6];
  }

  /** Appending seven pieces one after the other appends their concatenation. */
  lemma Append7(x: string, b0: string, b1: string, b2: string, b3: string, b4: string, b5: string, b6: string)
    ensures x + b0 + b1 + b2 + b3 + b4 + b5 + b6 == x + (b0 + (b1 + (b2 + (b3 + (b4 + (b5 + (b6 + "")))))))
  {
  }

  /**
   * One pass of the loop appends the block's seven lines, each ended by a
   * newline (each f-string of the loop is written as its pieces, the last
   * one being the newline).
   */
  lemma AppendItemLines(xml: string, it: Item)
    ensures AppendItem(xml, it) == xml + Unlines(ItemLines(it))
  {
    var ls := ItemLines(it);
    Unlines7(ls[0], ls[1], ls[2], ls[3], ls[4], ls[5], ls[6]);
    assert ls == [ls[0], ls[1], ls[2], ls[3], ls[4], ls[5], ls[6]];
    Append7(xml, ls[0] + "\n", ls[1] + "\n", ls[2] + "\n", ls[3] + "\n", ls[4] + "\n", ls[5] + "\n", ls[6] + "\n");
  }

  /** The lines of all the blocks, block after block. */
  function FeedLines(items: seq<Item>): (ls: seq<string>)
    decreases |items|
    ensures |ls| == 7 * |items|
  {
    if |items| == 0 then [] else FeedLines(items[..|items| - 1]) + ItemLines(items[|items| - 1])
  }

  /** Lines `7 * i` to `7 * i + 6` of the blocks are item `i`'s block. */
  lemma {:induction false} FeedLinesSlice(items: seq<Item>, i: nat)
    requires i < |items|
    ensures FeedLines(items)[7 * i..7 * i + 7] == ItemLines(items[i])
    decreases |items|
  {
    var n := |items| - 1;
    var before := FeedLines(items[..n]);
    assert FeedLines(items) == before + ItemLines(items[n]);
    if i < n {
      FeedLinesSlice(items[..n], i);
      assert (before + ItemLines(items[n]))[7 * i..7 * i + 7] == before[7 * i..7 * i + 7];
    } else {
      assert (before + ItemLines(items[n]))[7 * i..7 * i + 7] == ItemLines(items[n]);
    }
  }

  /** The serialised items are the lines of all the blocks, each ended by a newline. */
  lemma {:induction false} ItemsXmlLines(items: seq<Item>)
    ensures ItemsXml(items) == Unlines(FeedLines(items))
    decreases |items|
  {
    if |items| > 0 {
      var n := |items| - 1;
      ItemsXmlLines(items[..n]);
      AppendItemLines(ItemsXml(items[..n]), items[n]);
      UnlinesAppend(FeedLines(items[..n]), ItemLines(items[n]));
    }
  }

  /** No field of the item holds a newline. */
  predicate OneLineFields(it: Item) {
    '\n' !in it.title && '\n' !in it.description && '\n' !in it.link && '\n' !in it.date
  }

  /** A line of a one-line item's block holds no newline. */
  lemma LineFree(it: Item, j: nat)
    requires OneLineFields(it) && j < 7
    ensures !Contains(ItemLines(it)[j], "\n")
  {
    var l := ItemLines(it)[j];
    ContainsChar(l, '\n');
  }

  /** No line of the blocks of one-line items holds a newline. */
  lemma {:induction false} FeedLinesFree(items: seq<Item>)
    requires forall i | 0 <= i < |items| :: OneLineFields(items[i])
    ensures forall k | 0 <= k < |FeedLines(items)| :: !Contains(FeedLines(items)[k], "\n")
    decreases |items|
  {
    if |items| > 0 {
      var n := |items| - 1;
      FeedLinesFree(items[..n]);
      var before, block := FeedLines(items[..n]), ItemLines(items[n]);
      forall j | 0 <= j < 7 ensures !Contains(block[j], "\n") {
        LineFree(items[n], j);
      }
      assert FeedLines(items) == before + block;
    }
  }

  /** Lines without newlines, each ended by one, split back into those lines and a final empty piece. */
  lemma UnlinesSplit(ls: seq<string>)
    requires forall k | 0 <= k < |ls| :: !Contains(ls[k], "\n")
    ensures Split(Unlines(ls), "\n") == ls + [""]
  {
    var parts := ls + [""];
    ShortFree("", "\n");
    forall k | 0 <= k < |parts| ensures !Contains(parts[k], "\n") {
      if k < |ls| {
        assert parts[k] == ls[k];
      }
    }
    UnlinesJoin(ls);
    JoinSplit(parts, "\n");
  }

  /** Split at newlines, the serialised items give back the lines of the blocks and a final empty piece. */
  lemma ItemsXmlSplit(items: seq<Item>)
    requires forall i | 0 <= i < |items| :: OneLineFields(items[i])
    ensures Split(ItemsXml(items), "\n") == FeedLines(items) + [""]
  {
    FeedLinesFree(items);
    ItemsXmlLines(items);
    UnlinesSplit(FeedLines(items));
  }

  /**
   * Read line by line, the serialised items are exactly one seven-line
   * block per item, in order, each the lines of `ItemLines`: `<item>`, the
   * title, the description, the link, a guid equal to the link, the date and
   * `</item>`; then comes the empty text after the final newline.
   */
  lemma ItemsXmlStructure(items: seq<Item>, i: nat)
    requires forall i | 0 <= i < |items| :: OneLineFields(items[i])
    requires i < |items|
    ensures var ls := Split(ItemsXml(items), "\n");
      && |ls| == 7 * |items| + 1
      && ls[7 * |items|] == ""
      && ls[7 * i..7 * i + 7] == ItemLines(items[i])
  {
    ItemsXmlSplit(items);
    FeedLinesSlice(items, i);
    SliceBeforeLast(FeedLines(items), "", 7 * i, 7 * i + 7);
  }

  lemma SliceBeforeLast<T>(s: seq<T>, x: T, a: nat, b: nat)
    requires a <= b <= |s|
    ensures (s + [x])[a..b] == s[a..b]
  {
  }

  // ---------------------------------------------------------------- feed

  /** `rss_template.format(pub_date, last_build_date, items)`. */
  function Channel(pubDate: string, lastBuildDate: string, items: string): string {
    "<rss xmlns:atom=\"http://www.w3.org/2005/Atom\" version=\"2.0\">\n"
      + "<channel>\n"
      + "<title>Ben Trevett blog</title>\n"
      + "<description>Posts by Ben Trevett</description>\n"
      + "<link>http://www.bentrevett.com/</link>\n"
      + "<atom:link href=\"http://www.bentrevett.com/feed.xml\" rel=\"self\" type=\"application/rss+xml\"/>\n"
      + "<pubDate>" + pubDate + "</pubDate>\n"
      + "<lastBuildDate>" + lastBuildDate + "</lastBuildDate>\n"
      + items + "\n"
      + "</channel>\n"
      + "</rss>"
  }

  /**
   * The whole script from the listing to the text of `feed.xml`: collect
   * the items, sort them, take the newest date and serialise.
   */
  method BuildFeed(posts: seq<Post>, formatDate: string -> Option<string>)
    returns (r: Result<string, FeedError>)
    ensures |posts| == 0 ==> r == Failure(NoPosts)
    ensures match ExtractAll(posts, formatDate)
      case Failure(e) => r == Failure(e)
      case Success(items) =>
        var sorted := SortItems(items);
        |sorted| > 0 ==> r == Success(Channel(sorted[0].date, sorted[0].date, ItemsXml(sorted)))
  {
    var collected := CollectItems(posts, formatDate);
    if collected.Failure? {
      return Failure(collected.error);
    }
    var items := SortItems(collected.value);
    if |items| == 0 {
      return Failure(NoPosts);
    }
    var latestDate := items[0].date;
    var rssItems := SerializeItems(items);
    r := Success(Channel(latestDate, latestDate, rssItems));
  }
}
