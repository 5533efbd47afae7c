/**
 * The post formatter (format_posts.py): every selected Markdown file under
 * `source` becomes an HTML page under `posts`, its body converted by pandoc
 * and its title taken from the file's `# ` header.
 *
 * The directory listing and the file contents are the `files` argument and
 * pandoc is the parameter `pandoc` (None where it exits with an error); the
 * grammar and prose checks only print and are not part of this model.
 */
module Posts {
  import opened Wrappers
  import opened Text
  import Rss

  /** An entry of the `source` directory: its name and its Markdown text. */
  datatype SourceFile = SourceFile(name: string, markdown: string)

  /** A file the script writes: its path and its HTML. */
  datatype Page = Page(path: string, html: string)

  /** Where the script stops with an exception, and for which path. */
  datatype PostError =
    | PandocFailed(path: string)   // `subprocess.run(..., check=True)` raises
    | MissingHeader(path: string)  // `assert header.startswith('# ')` fails

  // ---------------------------------------------------------------- selection

  /** The filter of the `md_paths` comprehensions. */
  predicate Selected(name: string, fileName: Option<string>) {
    match fileName
    case None => EndsWith(name, ".md")
    case Some(n) => Contains(name, n) && EndsWith(name, ".md")
  }

  /** `md_paths`: the selected entries, in listing order. */
  function Select(files: seq<SourceFile>, fileName: Option<string>): (r: seq<SourceFile>)
    decreases |files|
    ensures |r| <= |files|
  {
    if |files| == 0 then []
    else (if Selected(files[0].name, fileName) then [files[0]] else []) + Select(files[1..], fileName)
  }

  /** An entry is selected exactly when it is listed and passes the filter. */
  lemma {:induction false} SelectMembers(files: seq<SourceFile>, fileName: Option<string>)
    ensures forall f :: f in Select(files, fileName) <==> f in files && Selected(f.name, fileName)
    decreases |files|
  {
    if |files| > 0 {
      SelectMembers(files[1..], fileName);
      assert files == [files[0]] + files[1..];
    }
  }

  /**
   * Filtering by a name keeps, in order, those `.md` entries of the
   * unfiltered selection whose name contains it.
   */
  lemma {:induction false} SelectNarrows(files: seq<SourceFile>, n: string)
    ensures Select(files, Some(n)) == Select(Select(files, None), Some(n))
    decreases |files|
  {
    if |files| > 0 {
      SelectNarrows(files[1..], n);
      var f, rest := files[0], Select(files[1..], None);
      if EndsWith(f.name, ".md") {
        assert Select(files, None) == [f] + rest;
        assert ([f] + rest)[0] == f;
        assert ([f] + rest)[1..] == rest;
      } else {
        assert Select(files, None) == rest;
        assert Select(files, Some(n)) == Select(files[1..], Some(n));
      }
    }
  }

  /** So the filtered selection is a subset of the unfiltered one. */
  lemma SelectSubset(files: seq<SourceFile>, n: string)
    ensures forall f | f in Select(files, Some(n)) :: f in Select(files, None)
  {
    SelectMembers(files, Some(n));
    SelectMembers(files, None);
  }

  // ---------------------------------------------------------------- title

  /**
   * The title check of `get_html_from_md`: the first line, up to the first
   * `\n`, must start with `# `; the title is the text after its last `# `.
   */
  function PostTitle(markdown: string): Option<string> {
    var header := Split(markdown, "\n")[0];
    if StartsWith(header, "# ") then Some(Last(Split(header, "# "))) else None
  }

  /**
   * The check passes exactly when the file starts with `# `; the title then
   * ends the first line, follows a `# ` and holds neither `# ` nor a newline.
   */
  lemma PostTitleSpec(markdown: string)
    ensures PostTitle(markdown).Some? <==> StartsWith(markdown, "# ")
    ensures PostTitle(markdown).Some? ==>
      var header, title := Split(markdown, "\n")[0], PostTitle(markdown).value;
      && StartsWith(markdown, header)
      && EndsWith(header, title)
      && SeparatorBefore(header, title, "# ")
      && !Contains(title, "# ")
      && '\n' !in title
  {
    var header := Split(markdown, "\n")[0];
    HeaderFacts(markdown);
    if StartsWith(header, "# ") {
      LastPieceFacts(header, "# ");
    }
  }

  /** The first line is a prefix of the file without a newline, and starts with `# ` when the file does. */
  lemma HeaderFacts(markdown: string)
    ensures var header := Split(markdown, "\n")[0];
      && StartsWith(markdown, header)
      && '\n' !in header
      && (StartsWith(header, "# ") <==> StartsWith(markdown, "# "))
  {
    var header := Split(markdown, "\n")[0];
    FirstPiece(markdown, "\n");
    ContainsChar(header, '\n');
    NewlineAt(markdown, "# ", |header|);
    if StartsWith(markdown, "# ") {
      assert |header| >= 2;
      assert header[..2] == markdown[..2];
    }
  }

  /**
   * A file that begins with `# `, a title holding neither `# ` nor a
   * newline, and then a newline or nothing, has that title.
   */
  lemma PlainHeaderTitle(markdown: string, title: string, rest: string)
    requires markdown == "# " + title + rest
    requires '\n' !in title && !Contains(title, "# ")
    requires |rest| == 0 || rest[0] == '\n'
    ensures PostTitle(markdown) == Some(title)
  {
    var h := "# " + title;
    var header := Split(markdown, "\n")[0];
    FirstPiece(markdown, "\n");
    ContainsChar(header, '\n');
    assert markdown[..|h|] == h;
    assert '\n' !in h;
    if |header| < |h| {
      NewlineAt(markdown, h, |header|);
      assert false;
    } else if |header| > |h| {
      assert false;
    }
    assert header == h;
    FindFirst(h, "# ", 0);
    assert h[2..] == title;
    assert Split(h, "# ") == [h[..0]] + Split(title, "# ");
  }

  /** A newline met inside a known prefix is a newline of that prefix. */
  lemma NewlineAt(s: string, p: string, k: nat)
    ensures StartsWith(s, p) && k < |p| && k <= |s| && StartsWith(s[k..], "\n") ==> p[k] == '\n'
  {
    if StartsWith(s, p) && k < |p| && k <= |s| && StartsWith(s[k..], "\n") {
      assert s[k..][..1] == "\n";
      assert s[..|p|][k] == s[k];
    }
  }

  // ---------------------------------------------------------------- page

  const TemplateHead: string :=
    "<!DOCTYPE html>\n"
    + "<html>\n"
    + "    <head>\n"
    + "        <link rel=\"stylesheet\" type=\"text/css\" href=\"../styles.css\">\n"
    + "        <link rel=\"shortcut icon\" type=\"image/x-icon\" href=\"../favicon.ico\">\n"
    + "        <title>Ben Trevett - "

  const TemplateMiddle: string :=
    "</title>\n" + (
    "        <!-- Global site tag (gtag.js) - Google Analytics -->\n"
    + "        <script async src=\"https://www.googletagmanager.com/gtag/js?id=UA-124821553-1\"></script>\n"
    + "        <script>\n"
    + "        window.dataLayer = window.dataLayer || [];\n"
    + "        function gtag(){dataLayer.push(arguments);}\n"
    + "        gtag('js', new Date());\n"
    + "        gtag('config', 'UA-124821553-1');\n"
    + "        </script>\n"
    + "    </head>\n"
    + "    <body>\n"
    + "        <!-- begin header -->\n"
    + "        <table>\n"
    + "            <td style=\"text-align:left\">\n"
    + "                <b>Ben Trevett</b>\n"
    + "            </td>\n"
    + "            <td style=\"text-align:right\">\n"
    + "                <a href=\"https://bentrevett.com\">Home</a> | <a href=\"https://www.github.com/bentrevett/\">GitHub</a> | <a href=\"https://www.twitter.com/ben_trevett/\">Twitter</a>\n"
    + "            </td>\n"
    + "        </table>\n"
    + "        <hr>\n"
    + "        <!-- end header -->\n"
    + "\n")

  const TemplateFoot: string :=
    "\n"
    + "        <!-- begin footer -->\n"
    + "        <hr>\n"
    + "        <table>\n"
    + "            <td style=\"text-align:right\">\n"
    + "                <a href=\"#\">Top</a>\n"
    + "            </td>\n"
    + "        </table>\n"
    + "        <!-- end footer -->\n"
    + "    </body>\n"
    + "</html>"

  /** `html_template.format(title, html_content)`. */
  function Fill(title: string, body: string): string {
    TemplateHead + title + TemplateMiddle + body + TemplateFoot
  }

  /**
   * The title and the body can be read back from the page: they are
   * inserted once each, in their slots, when the title holds no `<`.
   */
  lemma FillRecoverable(t1: string, b1: string, t2: string, b2: string)
    requires '<' !in t1 && '<' !in t2
    requires Fill(t1, b1) == Fill(t2, b2)
    ensures t1 == t2 && b1 == b2
  {
    assert TemplateMiddle[0] == '<';
    SlotsRecoverable(TemplateHead, TemplateMiddle, TemplateFoot, t1, b1, t2, b2);
  }

  /** Two slots of a template, the second opened by a `<` that the first slot's text lacks. */
  lemma SlotsRecoverable(h: string, m: string, f: string, t1: string, b1: string, t2: string, b2: string)
    requires |m| > 0 && m[0] == '<' && '<' !in t1 && '<' !in t2
    requires h + t1 + m + b1 + f == h + t2 + m + b2 + f
    ensures t1 == t2 && b1 == b2
  {
    var x1, x2 := t1 + m + b1 + f, t2 + m + b2 + f;
    assert h + t1 + m + b1 + f == h + x1 && h + t2 + m + b2 + f == h + x2;
    assert x1 == (h + x1)[|h|..] == x2;
    var k := if |t1| < |t2| then |t1| else |t2|;
    SlotChar(t1, m, b1, f, k);
    SlotChar(t2, m, b2, f, k);
    assert |t1| == |t2|;
    assert t1 == x1[..|t1|] && t2 == x2[..|t2|];
    assert b1 == x1[|t1| + |m|..|x1| - |f|];
    assert b2 == x2[|t2| + |m|..|x2| - |f|];
  }

  /** The characters of a filled template at and before the second slot's opening. */
  lemma SlotChar(t: string, m: string, b: string, f: string, k: nat)
    ensures k < |t| ==> (t + m + b + f)[k] == t[k]
    ensures k == |t| && |m| > 0 ==> (t + m + b + f)[k] == m[0]
  {
  }

  /** `os.path.join('source', name)`. */
  function SourcePath(name: string): string {
    "source" + "/" + name
  }

  /** `html_path`: every `source` becomes `posts`, then every `.md` becomes `.html`. */
  function HtmlPath(mdPath: string): string {
    ReplaceAll(ReplaceAll(mdPath, "source", "posts"), ".md", ".html")
  }

  /** Each rewrite is a split at the old text and a join with the new. */
  lemma HtmlPathPieces(mdPath: string)
    ensures HtmlPath(mdPath) == Join(Split(Join(Split(mdPath, "source"), "posts"), ".md"), ".html")
  {
    ReplaceAllSplit(mdPath, "source", "posts");
    ReplaceAllSplit(ReplaceAll(mdPath, "source", "posts"), ".md", ".html");
  }

  /** The first rewrite touches only the leading `source` of `source/x.md`. */
  lemma SourceRewrite(stem: string)
    requires !Contains(stem, "source")
    ensures ReplaceAll(SourcePath(stem + ".md"), "source", "posts") == "posts/" + stem + ".md"
  {
    var src, tail := "source", "/" + stem + ".md";
    Regroup(src, "/", stem, ".md");
    Regroup("posts", "/", stem, ".md");
    SourceTailFree(stem);
    ReplaceAbsent(tail, src, "posts");
    ReplaceLeading(src, tail, "posts");
    assert "posts/" == "posts" + "/";
  }

  /** `/x.md` holds `source` only if `x` does. */
  lemma SourceTailFree(stem: string)
    requires !Contains(stem, "source")
    ensures !Contains("/" + stem + ".md", "source")
  {
    assert '/' !in "source" && '.' !in "source" && 'm' !in "source" && 'd' !in "source";
    FreeAround("/", stem, ".md", "source");
  }

  lemma Regroup(a: string, b: string, c: string, d: string)
    ensures a + b + (c + d) == a + (b + c + d)
  {
  }

  /** The second rewrite touches only the trailing `.md` of `posts/x.md`. */
  lemma ExtensionRewrite(stem: string)
    requires !Contains(stem, ".md")
    ensures ReplaceAll("posts/" + stem + ".md", ".md", ".html") == "posts/" + stem + ".html"
  {
    var md, head := ".md", "posts/" + stem;
    ExtensionHeadFree(stem);
    ReplaceSkip(head, md, md, ".html");
    ReplaceLeading(md, "", ".html");
    assert md + "" == md;
  }

  /** `posts/x` holds `.md` only if `x` does, and no `.md` straddles its end and a following `.md`. */
  lemma ExtensionHeadFree(stem: string)
    requires !Contains(stem, ".md")
    ensures !Contains("posts/" + stem, ".md") && NoBridge("posts/" + stem, ".md", ".md")
  {
    assert forall i | 0 <= i < |"posts/"| :: "posts/"[i] != '.';
    FirstCharFree("posts/", ".md");
    ConcatFree("posts/", stem, ".md");
    assert ".md"[1] != '.' && ".md"[2] != '.';
  }

  /**
   * `source/x.md` becomes `posts/x.html` when `x` holds neither `source`
   * nor `.md`.
   */
  lemma HtmlPathOfPost(stem: string)
    requires !Contains(stem, "source") && !Contains(stem, ".md")
    ensures HtmlPath(SourcePath(stem + ".md")) == "posts/" + stem + ".html"
  {
    SourceRewrite(stem);
    ExtensionRewrite(stem);
  }

  /**
   * A post whose name holds `source` is written under another name than the
   * one the feed links to: `source/xsource.md` becomes `posts/xposts.html`,
   * because every `source` in the path is replaced, while `format_rss.py`
   * links to `posts/xsource.html`.
   */
  lemma HtmlPathRenamesStem(pre: string)
    requires '.' !in pre && !Contains(pre, "source")
    ensures HtmlPath(SourcePath(pre + "source" + ".md")) == "posts" + "/" + (pre + "posts") + ".html"
    ensures Rss.Link(pre + "source" + ".md") == Rss.PostsUrl + (pre + "source") + ".html"
    ensures pre + "posts" != pre + "source"
  {
    SourceInStem(pre);
    ExtensionAfterPosts(pre);
    assert '.' !in "source";
    StemBeforeDot(pre + "source");
    assert (pre + "posts")[|pre|] == 'p' && (pre + "source")[|pre|] == 's';
  }

  /** The first rewrite replaces both the directory and the `source` at the end of the stem. */
  lemma SourceInStem(pre: string)
    requires !Contains(pre, "source")
    ensures ReplaceAll(SourcePath(pre + "source" + ".md"), "source", "posts") == "posts" + "/" + pre + "posts" + ".md"
  {
    var src, head := "source", "/" + pre;
    assert !Contains(head, src) by {
      assert '/' !in src;
      FreeAround("/", pre, "", src);
      assert "/" + pre + "" == head;
    }
    assert !Contains(".md", src) by {
      ShortFree(".md", src);
    }
    assert forall k | 1 <= k < |src| :: src[k] != src[0];
    ReplaceTwice(src, head, ".md", "posts");
    Assoc5(src, "/", pre, src, ".md");
    Assoc5("posts", "/", pre, "posts", ".md");
  }

  /** The second rewrite replaces only the extension. */
  lemma ExtensionAfterPosts(pre: string)
    requires '.' !in pre
    ensures ReplaceAll("posts" + "/" + pre + "posts" + ".md", ".md", ".html") == "posts" + "/" + (pre + "posts") + ".html"
  {
    var md, head := ".md", "posts" + "/" + pre + "posts";
    assert '.' !in "posts" && '.' !in "/";
    assert forall i | 0 <= i < |head| :: head[i] != md[0];
    FirstCharFree(head, md);
    assert NoBridge(head, md, md) by {
      assert md[1] != '.' && md[2] != '.';
    }
    ReplaceSkip(head, md, md, ".html");
    ReplaceLeading(md, "", ".html");
    assert md + "" == md;
  }

  /** The text before the first `.` of a name ending in `.md`. */
  lemma StemBeforeDot(stem: string)
    requires '.' !in stem
    ensures Split(stem + ".md", ".")[0] == stem
  {
    assert forall i | 0 <= i < |stem| :: stem[i] != "."[0];
    FirstCharFree(stem, ".");
    SplitAfterFree(stem, "md", ".");
    assert stem + ".md" == stem + "." + "md";
  }

  /** One pass of the loop: pandoc, the title check, the page and its path. */
  function MakePage(file: SourceFile, pandoc: string -> Option<string>): Result<Page, PostError> {
    var mdPath := SourcePath(file.name);
    match pandoc(file.markdown)
    case None => Failure(PandocFailed(mdPath))
    case Some(body) =>
      match PostTitle(file.markdown)
      case None => Failure(MissingHeader(mdPath))
      case Some(title) => Success(Page(HtmlPath(mdPath), Fill(title, body)))
  }

  /** The loop over `md_paths`: the pages written, and the exception that stopped it, if any. */
  function GenerateAll(files: seq<SourceFile>, pandoc: string -> Option<string>): Partial<Page, PostError> {
    Attempt(files, (file: SourceFile) => MakePage(file, pandoc))
  }

  /**
   * Without an exception, one page is written per selected file, in order;
   * with one, it comes from the first failing file, and exactly the pages of
   * the files before it have been written.
   */
  lemma GenerateAllSpec(files: seq<SourceFile>, pandoc: string -> Option<string>)
    ensures var run := GenerateAll(files, pandoc);
      && (run.error.None? <==> forall i | 0 <= i < |files| :: MakePage(files[i], pandoc).Success?)
      && (run.error.None? ==>
            |run.done| == |files| && forall i | 0 <= i < |files| :: MakePage(files[i], pandoc) == Success(run.done[i]))
      && (run.error.Some? ==> exists k | 0 <= k < |files| ::
            && MakePage(files[k], pandoc) == Failure(run.error.value)
            && |run.done| == k
            && forall i | 0 <= i < k :: MakePage(files[i], pandoc) == Success(run.done[i]))
  {
    AttemptSpec(files, (file: SourceFile) => MakePage(file, pandoc));
  }

  /** The script after parsing its argument: select, then generate page after page. */
  method GeneratePosts(files: seq<SourceFile>, fileName: Option<string>, pandoc: string -> Option<string>)
    returns (written: seq<Page>, error: Option<PostError>)
    ensures Partial(written, error) == GenerateAll(Select(files, fileName), pandoc)
  {
    var step := (file: SourceFile) => MakePage(file, pandoc);
    var mdPaths := Select(files, fileName);
    written, error := [], None;
    for i := 0 to |mdPaths|
      invariant Attempt(mdPaths[..i], step) == Partial(written, None)
    {
      AttemptNext(mdPaths, i, step, written);
      var page := step(mdPaths[i]);
      if page.Failure? {
        error := Some(page.error);
        AttemptStops(mdPaths, i + 1, step);
        return;
      }
      written := written + [page.value];
    }
    assert mdPaths[..|mdPaths|] == mdPaths;
  }
}
