# bentrevett.github.io, modelled in Dafny

This project models the parts of Ben Trevett's personal site that compute things:

- **Glovedle** (`projects/glovedle/index.js`) is a word-guessing game. Each guess is scored by the cosine similarity of its GloVe vector with the target word's vector. The page shows a message for the guess and a leaderboard of the distinct guesses so far, best first.
- **The RSS builder** (`format_rss.py`) turns every post in `source` into an `<item>`. It takes:
  - the title from the first line;
  - the date from a `<span class="date">` tag;
  - the description from the fifth line;
  - the link from the file name.

  It sorts the items newest first and writes them into the channel template.
- **The post formatter** (`format_posts.py`) turns every selected Markdown file in `source` into an HTML page under `posts`. The body comes from pandoc and the title comes from the `# ` header.
- **The UUID page** (`projects/uuid/index.js`) generates a number of UUIDs and shows them separated by `<br>`. It can copy or download them as text with one UUID per line.
- **The dice roller** (`cobdg/dice.js`) rolls four six-sided dice and a time die, and shows each die's face as an image.
- **The Coloretto action card** (`coloretto/coloretto.js`) draws a row to add a card to and a row to take from.

Modules:

| Module | File | Contents |
|---|---|---|
| `Wrappers` | `wrappers.dfy` | `Option`, `Result`, and two loop shapes: `Traverse` (stop at the first failure) and `Attempt` (keep the results made before the first failure). |
| `Text` | `text.dfy` | The string operations the scripts use: `startswith`/`endswith`, `in`, `split`, `join`, `replace`, string ordering and decimal numerals. Each comes with its laws. |
| `Ranking` | `ranking.dfy` | The stable sort that both `Array.prototype.sort` and Python's `sorted(..., reverse=True)` perform. |
| `Glovedle` | `glovedle.dfy` | The game. |
| `Rss` | `rss.dfy` | The RSS builder. |
| `Posts` | `posts.dfy` | The post formatter. |
| `Uuid` | `uuid.dfy` | The UUID page. |
| `Dice` | `dice.dfy` | The dice roller. |
| `Coloretto` | `coloretto.dfy` | The action card. |

Page state that the handlers update is modelled as classes: the game, the UUID panel, the dice board and the action card. Each handler is a method with a `modifies` clause. The loops of the source are methods proved against specification functions:

- the `getDot` and `getMagnitude` sums;
- the UUID push loop;
- the two loops of the RSS builder;
- the page loop of the formatter.

Several things become parameters of the model:

- I/O and library calls: the directory listing, the file contents, pandoc, `strptime`/`strftime`, `fetch` of a word vector and `uuidv4`.
- The floating-point part of the cosine similarity.
- `Math.random()`, which becomes a real number in [0, 1).

Three facts about the code shape the model:

- `getDot` reads `b` only at the indices of `a`, so `Dot(a, b)` requires `|a| <= |b|`.
- The leaderboard ranks by the number read back from the `toFixed(3)` string. `FormatMilliRoundTrip` shows that this string reads back as exactly its number of thousandths, so the model keeps the similarity as an integer number of thousandths.
- `format_posts.py` replaces every `source` in a path, not only the directory, while `format_rss.py` links to the file name as it is. A post named `xsource.md` is therefore written to `posts/xposts.html` but linked as `posts/xsource.html` (`HtmlPathRenamesStem`).

## Model

| member | source | states |
|---|---|---|
| Glovedle.GetDot | projects/glovedle/index.js:1-7 | The loop's sum is the sum of `a[i] * b[i]` over the indices of `a`. |
| Glovedle.GetSumSquares | projects/glovedle/index.js:9-15 | The loop's sum is the sum of the squares of the entries, i.e. the square of the magnitude. |
| Glovedle.DotSymmetric | projects/glovedle/index.js:17-19 | For vectors of equal length the dot product, and so the similarity's numerator, does not depend on argument order. |
| Glovedle.DotSelf | projects/glovedle/index.js:9-19 | The squared magnitude is the dot product of a vector with itself. |
| Glovedle.SumSquaresZero | projects/glovedle/index.js:9-19 | The squared magnitude is never negative. It is zero exactly for the all-zero vector, the one integer input where the similarity divides by zero. |
| Glovedle.PickIndex | projects/glovedle/index.js:32-33 | The random index of the target word is always inside the word list. |
| Glovedle.Lower | projects/glovedle/index.js:51 | Lower-casing keeps the length and leaves no ASCII capital. Each capital becomes the small letter 32 code points above it, and every other character is unchanged. |
| Glovedle.FormatMilliRoundTrip | projects/glovedle/index.js:58-72 | The `toFixed(3)` string of a similarity reads back as exactly that similarity. Ranking by the strings, as the comparator does, is therefore ranking by the scores. |
| Glovedle.Verdict | projects/glovedle/index.js:59-66 | The message for a valid word is green exactly when it is the target word, and otherwise blue, never red. |
| Glovedle.ByScoreTotalPreorder | projects/glovedle/index.js:72 | The comparator `b.similarity - a.similarity` orders guesses by a total preorder. |
| Glovedle.RecordPreserves | projects/glovedle/index.js:67-72 | Recording a guess keeps the leaderboard free of repeated words and in non-increasing order of similarity. A repeated word leaves it unchanged. A new word adds exactly that one entry and keeps all the others. |
| Glovedle.RenderLines | projects/glovedle/index.js:73-82 | Split at `<br>`, the rendered leaderboard gives back one line per entry, in leaderboard order, provided no word contains `<br>`. |
| Glovedle.Game.constructor | projects/glovedle/index.js:31-39 | The target is the word at the random index. Its vector is the looked-up vector. The leaderboard starts empty. |
| Glovedle.Game.Type | projects/glovedle/index.js:41 | Typing sets the text field and changes nothing else. |
| Glovedle.Game.Submit | projects/glovedle/index.js:50-86 | A rejected `fetch` ends the handler with nothing changed, the field included. An unknown word gives the red "not a valid word" message and leaves the leaderboard alone. A known word gets its verdict, and is recorded and re-rendered only when new. The field is cleared. The leaderboard stays distinct, ranked and equal to its rendering. |
| Ranking.Sort | projects/glovedle/index.js:72 | A sort returns a permutation of its input. |
| Ranking.InsertRanked | projects/glovedle/index.js:72 | Inserting an entry into a ranked list keeps it ranked. |
| Ranking.SortRanked | format_rss.py:45 | Sorting by a total preorder ranks the result. |
| Ranking.SortOfRanked | format_rss.py:45 | Stability: a list that is already ranked is left exactly as it is. |
| Ranking.SortAppend | projects/glovedle/index.js:71-72 | The sort's own step, stated for the push-then-sort of the handler: pushing an entry onto a sorted list and sorting is inserting it after every entry ranked at least as high. It is the link from `Record` to `InsertRanked`. |
| Rss.FirstLine | format_rss.py:30 | `splitlines()[0]` fails exactly for an empty file. Otherwise it is the longest prefix without a line boundary. |
| Rss.TagSearchLeftmost | format_rss.py:31 | The date search returns the leftmost position that follows the opening tag and from which a closing tag is reached on the same line. It finds nothing only when no such position exists. |
| Rss.IsoDateBetweenTags | format_rss.py:31 | The date found sits right after `<span class="date">` and right before `</span>`, holds no newline and holds no `</span>`. |
| Rss.IsoDateFound | format_rss.py:31 | A date tag followed by `</span>` on the same line is always found. |
| Rss.LinkStem | format_rss.py:39 | The link names the file up to its first `.`: the whole name when it has no `.`, otherwise the text before the first `.`. |
| Rss.ExtractItemFields | format_rss.py:28-42 | A post yields an item exactly when it is non-empty, has a date the parser accepts, and has at least five lines. The title is the text after the last `# ` of the first line. The description is the fifth line. Neither holds a newline. The link and the dates are those of the post. |
| Rss.ExtractAllSpec | format_rss.py:27-43 | The loop succeeds exactly when every post yields an item, giving one item per post in listing order. Otherwise it fails with the error of the first failing post. |
| Rss.CollectItems | format_rss.py:25-43 | The loop computes `ExtractAll`. |
| Rss.NewerOrSameTotalPreorder | format_rss.py:45 | Ordering by ISO date string, newest first, is a total preorder. |
| Rss.SortItemsNewestFirst | format_rss.py:45-47 | The sorted items are the same items, in non-increasing ISO-date order. The first is at least as new as every item, so its date is the latest date. |
| Rss.SerializeItems | format_rss.py:49-58 | The loop computes `ItemsXml`. |
| Rss.ItemsXmlLines | format_rss.py:49-58 | The serialised items are the lines of the seven-line blocks, each followed by a newline. |
| Rss.ItemsXmlStructure | format_rss.py:49-58 | Read line by line, the serialised items are one block per item, in order. Each block is `<item>`, title, description, link, a guid equal to the link, date, `</item>`, followed by the empty text after the last newline. |
| Rss.BuildFeed | format_rss.py:23-63 | The feed fails on the first failing post, and with `NoPosts` when there are none. Otherwise it is the channel template filled with the newest item's date twice and the serialised items sorted newest first. |
| Posts.Select | format_posts.py:98-101 | The selection keeps at most the listed entries. |
| Posts.SelectMembers | format_posts.py:98-101 | An entry is selected exactly when it is listed, ends with `.md` and, when a name is given, contains it. |
| Posts.SelectNarrows | format_posts.py:98-101 | Filtering by a name gives, in order, those entries of the unfiltered selection whose name contains it. |
| Posts.SelectSubset | format_posts.py:98-101 | The filtered selection is a subset of the unfiltered one. |
| Posts.PostTitleSpec | format_posts.py:86-88 | The header check passes exactly when the file starts with `# `. The title then ends the first line, follows a `# ` and holds neither `# ` nor a newline. |
| Posts.PlainHeaderTitle | format_posts.py:86-88 | A file starting with `# `, a title and a newline (or the end) has that title. |
| Posts.FillRecoverable | format_posts.py:90 | Filling the page template is injective when titles hold no `<`: the title and the body can be read back from the page. |
| Posts.HtmlPathPieces | format_posts.py:109-110 | Each path rewrite replaces every occurrence: it splits at the old text and joins with the new. |
| Posts.HtmlPathOfPost | format_posts.py:104-110 | `source/x.md` is written to `posts/x.html` when `x` contains neither `source` nor `.md`. |
| Posts.HtmlPathRenamesStem | format_posts.py:104-110 | A stem holding `source` is renamed: `source/xsource.md` is written to `posts/xposts.html`, while the feed's link for it names `xsource.html`. |
| Posts.GenerateAllSpec | format_posts.py:103-112 | Without an exception, one page is written per selected file, in order. With one, the exception comes from the first failing file, and exactly the pages of the files before it have been written. |
| Posts.GeneratePosts | format_posts.py:98-112 | The script's loop writes exactly the pages of `GenerateAll` on the selection and stops at the same exception. |
| Uuid.Count | projects/uuid/index.js:16 | The loop runs the least whole number of times that is not below `amount`. |
| Uuid.CountWhole | projects/uuid/index.js:16 | A whole amount gives exactly that many UUIDs. |
| Uuid.MakeUuids | projects/uuid/index.js:15-18 | The loop gives `Count(amount)` UUIDs, the `i`-th from the `i`-th call. |
| Uuid.PlainTextRoundTrip | projects/uuid/index.js:19-27 | Replacing `<br>` by newlines turns the displayed list into the UUIDs joined by newlines. Split at newlines, this text gives the UUIDs back. |
| Uuid.UuidsRoundTrip | projects/uuid/index.js:19-34 | For UUID-shaped strings, the copied or downloaded text has exactly the generated UUIDs, one per line. |
| Uuid.UuidPanel.constructor | projects/uuid/index.js:43 | Loading the page runs the generate handler once on an empty element: the display stays empty unless `amount > 0`, and is otherwise the `<br>` join of `Count(amount)` UUIDs. |
| Uuid.UuidPanel.Generate | projects/uuid/index.js:12-22 | Nothing changes unless `amount > 0`. Otherwise the display is the `Count(amount)` new UUIDs joined by `<br>`. |
| Uuid.UuidPanel.Copy | projects/uuid/index.js:24-29 | The clipboard text is the display with every `<br>` replaced by a newline. |
| Uuid.UuidPanel.Save | projects/uuid/index.js:31-41 | The download is named `uuids.txt` and holds the same plain text. |
| Dice.Roll | cobdg/dice.js:8-12 | A roll is a face from 1 to 6. |
| Dice.TimeFace | cobdg/dice.js:14-20 | The time die shows face 1 or face 2. Face 2 (the hourglass) shows exactly for raw rolls of 1 or 2. |
| Dice.TimeFaceOdds | cobdg/dice.js:14-20 | Exactly two of the six raw outcomes give the hourglass. |
| Dice.TimeFaceOfRoll | cobdg/dice.js:12-20 | The hourglass shows exactly when the random value is below one third. |
| Dice.ImageSrcInjective | cobdg/dice.js:22-26 | Different faces of a die get different image names. |
| Dice.TimeImage | cobdg/dice.js:26 | The time die is only ever drawn as `t1.png` or `t2.png`. |
| Dice.DiceBoard.RollDice | cobdg/dice.js:1-27 | Each die image is its prefix, its face and `.png`. The time die uses the folded face. |
| Coloretto.RollOf | coloretto/coloretto.js:5-6 | A roll of `n` is in 1..n. |
| Coloretto.AddWhich | coloretto/coloretto.js:5 | The add roll is in 1..4. |
| Coloretto.TakeWhich | coloretto/coloretto.js:6 | The take roll is in 1..3. |
| Coloretto.AddLabelInjective | coloretto/coloretto.js:11-24 | Each add roll has its own label, one of `none`, `left`, `middle`, `right`. |
| Coloretto.TakeLabelInjective | coloretto/coloretto.js:26-36 | Each take roll has its own label, one of `left`, `middle`, `right`, and never `none`. |
| Coloretto.CardTexts | coloretto/coloretto.js:8-36 | The card only ever reads one of the four "Add to:" texts and one of the three "Take from:" texts. |
| Coloretto.ActionCard.SelectAction | coloretto/coloretto.js:1-37 | The two texts are "Add to: " and "Take from: " followed by the labels of the two rolls. |

## Left out

- Floating point is not modelled: `Math.sqrt`, the division of the cosine similarity and the rounding of `toFixed(3)`. They are the parameter `scale`, which maps the dot product and the two squared magnitudes to a number of thousandths. Vector entries are integers; rounding and underflow in the dot product and the sums of squares are not modelled, so a vector of tiny non-zero entries, whose float sum of squares can underflow to zero, has no counterpart.
- Glovedle.Game.Submit: the similarity is always a number. The `NaN` that a zero vector produces, and the `"-0.000"` that a tiny negative similarity is displayed as, are not modelled (`SumSquaresZero` states when the first happens).
- Glovedle.Game.Submit: requires the guessed vector to be at least as long as the target vector. A shorter one makes `getDot` read `undefined` and the similarity `NaN`, which is not modelled.
- Glovedle.Game.constructor: requires the target word's vector to be found. When the target's response does not parse (`NotJson`), `target_vec` is `null` and every later valid guess throws. When the target's `fetch` rejects (`Rejected`), `main` stops at the `await` before any listener is attached, so the page never reacts to a guess. Neither outcome is modelled.
- Glovedle.Lower: lower-cases ASCII letters only. JavaScript's `toLowerCase` also maps other Unicode capitals.
- The `fetch` of word vectors and its JSON parse are the parameter `lookup`. It gives `Rejected` when the `fetch` rejects, and the handler then stops with nothing changed; it gives `NotJson` when the response does not parse, which is the `null` case. `uuidv4` is the parameter `uuid`. The awaits are not modelled, so two clicks cannot interleave in the model.
- `Math.random()` is a real parameter in [0, 1) for each draw.
- The DOM, the clipboard, `Blob`/`URL.createObjectURL`, the Enter-key handlers, the touch/click listeners and `window.onload` are not modelled. The handlers are the methods of the classes, and the elements are their fields. The `gen_btn.click()` that the UUID page runs on load is the `UuidPanel` constructor.
- Uuid.UuidPanel.Generate: `#amount` is taken to be a number, or None for `NaN`. JavaScript's conversion of the field's text to a number is not modelled. An `Infinity` amount, or one beyond 2^53 where `i++` stops changing `i`, passes `amount > 0` and makes the loop run forever; in the model `amount` is a finite real and `Count(amount)` always ends the loop.
- File I/O, `os.listdir`, `argparse` and the progress `print` are not modelled. The listing with the file contents is the argument of the scripts' functions, and the written files are their results.
- pandoc is the parameter `pandoc`, None where it exits with an error.
- `strptime(..., "%Y-%m-%d").strftime(...)` is the parameter `formatDate`, None where `strptime` raises.
- `check_grammar` and `check_prose` (`format_posts.py:49-75`, called at lines 106-107) are not modelled: they only print suggestions and their results are unused.
- The regular-expression engine is not modelled. The one pattern used is modelled as an explicit leftmost search: a look-behind for the opening tag, a lazy run of non-newline characters and a look-ahead for the closing tag.
- The f-strings and `str.format` calls are modelled as concatenations of their literal pieces and fields.
- `format_index.py` and the animations are not part of this model.
