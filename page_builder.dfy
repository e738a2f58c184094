/** `PageBuilder.fromMarkdown`: one markdown text becomes one page, or, in
    explode mode, one page per top-level heading. The YAML loader, `kebabCase`
    and the markdown renderer are parameters. */
module PageBuilder {
  import opened Sequences
  import opened Wrappers
  import opened Strings
  import opened Patterns
  import opened Pages

  /** The libraries the builder calls: `yaml.load` (the mapping a document
      denotes, `None` when it loads to a falsy value, or the error it throws),
      lodash `kebabCase` and markdown-it's `render`. */
  datatype Libraries = Libraries(
    loadYaml: string -> Result<Option<map<string, Value>>, Exception>,
    kebabCase: string -> string,
    render: string -> string)

  /** A piece of markdown and the web path of the page it becomes. */
  datatype Document = Document(path: string, markdown: string)

  /** The front-matter pattern `/---\n(.*?)\n---/s`. */
  const FrontMatterOpen: string := "---\n"
  const FrontMatterClose: string := "\n---"

  /** The captured front matter, `""` when there is no block. */
  function FrontMatterText(markdown: string): string
  {
    Captured(markdown, FrontMatterOpen, FrontMatterClose, true).GetOr("")
  }

  /** The markdown with its first front-matter block cut out. */
  function Body(markdown: string): string
  {
    RemoveFirstMatch(markdown, FrontMatterOpen, FrontMatterClose, true)
  }

  /** `yaml.load(frontMatter || "") || {}`; a YAML error propagates. */
  function FrontMatterData(libs: Libraries, markdown: string): Result<map<string, Value>, Exception>
  {
    match libs.loadYaml(FrontMatterText(markdown))
    case Failure(e) => Failure(e)
    case Success(None) => Success(map[])
    case Success(Some(data)) => Success(data)
  }

  /** Keys a page sets itself: `title`, `description` and `layout` are taken
      out of the front matter, `path` and `markdown` are overwritten. */
  const Reserved: set<string> := {"title", "description", "layout", "path", "markdown"}

  /** The front-matter fields every page carries over unchanged. */
  function CustomFields(data: map<string, Value>): map<string, Value>
  {
    map key | key in data && key !in Reserved :: data[key]
  }

  // ---------------------------------------------------------------------
  // Explode mode

  predicate IsHeading(line: string)
  {
    StartsWith(line, "# ")
  }

  /** `kebabCase(line.replace("# ", ""))`. */
  function HeadingId(line: string, kebab: string -> string): string
  {
    kebab(ReplaceFirst(line, "# ", ""))
  }

  /** The id of the `count`-th earlier heading with the same id: the id
      itself the first time, then `id-1`, `id-2`, .... */
  function Slug(id: string, count: nat): string
  {
    if count == 0 then id else id + "-" + NatToString(count)
  }

  /** How many headings in `lines` have the id `id`. */
  function IdCount(lines: seq<string>, kebab: string -> string, id: string): nat
  {
    if lines == [] then 0
    else
      var last := lines[|lines| - 1];
      IdCount(lines[..|lines| - 1], kebab, id) + (if IsHeading(last) && HeadingId(last, kebab) == id then 1 else 0)
  }

  /** `idCounter[id] || 0`, reading a counter whose entries are all positive. */
  function Count(counter: map<string, nat>, id: string): nat
  {
    if id in counter then counter[id] else 0
  }

  /** `hs` lists, in increasing order, positions of heading lines. */
  predicate HeadingPositions(lines: seq<string>, hs: seq<nat>)
  {
    && (forall k :: 0 <= k < |hs| ==> hs[k] < |lines| && IsHeading(lines[hs[k]]))
    && (forall k, l :: 0 <= k < l < |hs| ==> hs[k] < hs[l])
  }

  /** The positions of all heading lines, in order. */
  function HeadingIndices(lines: seq<string>): (hs: seq<nat>)
    ensures HeadingPositions(lines, hs)
    ensures forall i :: 0 <= i < |lines| && IsHeading(lines[i]) ==> i in hs
  {
    if lines == [] then []
    else
      var init := lines[..|lines| - 1];
      var hs0 := HeadingIndices(init);
      assert forall k :: 0 <= k < |hs0| ==> lines[hs0[k]] == init[hs0[k]];
      if IsHeading(lines[|lines| - 1]) then hs0 + [|lines| - 1] else hs0
  }

  /** Each line followed by a line break. */
  function Block(lines: seq<string>): string
  {
    if lines == [] then ""
    else Block(lines[..|lines| - 1]) + lines[|lines| - 1] + "\n"
  }

  /** The line after the `k`-th heading's section: the next heading, or the end. */
  function SectionEnd(lines: seq<string>, hs: seq<nat>, k: nat): nat
    requires HeadingPositions(lines, hs) && k < |hs|
  {
    if k + 1 < |hs| then hs[k + 1] else |lines|
  }

  /** The document the `k`-th heading starts: its path is the base path
      without its last segment, a slash and the heading's slug; its markdown
      is the heading line, with no line break, and then every line up to the
      next heading, each followed by a line break. */
  function DocumentAt(lines: seq<string>, hs: seq<nat>, k: nat, path: string, kebab: string -> string): Document
    requires HeadingPositions(lines, hs) && k < |hs|
  {
    var h := hs[k];
    var id := HeadingId(lines[h], kebab);
    Document(Parent(path) + "/" + Slug(id, IdCount(lines[..h], kebab, id)),
             lines[h] + Block(lines[h + 1..SectionEnd(lines, hs, k)]))
  }

  /** The documents explode mode makes of `lines`: one per heading line. */
  function ExplodedDocuments(lines: seq<string>, path: string, kebab: string -> string): (docs: seq<Document>)
    ensures |docs| == |HeadingIndices(lines)|
  {
    var hs := HeadingIndices(lines);
    seq(|hs|, k requires 0 <= k < |hs| => DocumentAt(lines, hs, k, path, kebab))
  }

  /** The explode loop over the lines of the body. It keeps the document
      being filled, the documents finished so far and a counter per id. */
  method ExplodeLines(lines: seq<string>, path: string, kebab: string -> string) returns (documents: seq<Document>)
    ensures documents == ExplodedDocuments(lines, path, kebab)
  {
    documents := [];
    var idCounter: map<string, nat> := map[];
    var current: Option<Document> := None;
    for i := 0 to |lines|
      invariant current.None? ==> documents == [] && HeadingIndices(lines[..i]) == []
      invariant current.Some? ==> documents + [current.value] == ExplodedDocuments(lines[..i], path, kebab)
      invariant forall id :: Count(idCounter, id) == IdCount(lines[..i], kebab, id)
    {
      var line := lines[i];
      assert lines[..i + 1] == lines[..i] + [line];
      CountStep(lines[..i], line, kebab);
      if IsHeading(line) {
        HeadingIndicesStep(lines[..i], line);
        HeadingStep(lines[..i], line, path, kebab);
        if current.Some? {
          documents := documents + [current.value];
        }
        var title := ReplaceFirst(line, "# ", "");
        var id := kebab(title);
        var count := Count(idCounter, id);
        idCounter := idCounter[id := count + 1];
        if count != 0 {
          id := id + "-" + NatToString(count);
        }
        var pathWithoutLastPart := Parent(path);
        current := Some(Document(pathWithoutLastPart + "/" + id, line));
      } else {
        HeadingIndicesStep(lines[..i], line);
        PlainStep(lines[..i], line, path, kebab);
        if current.Some? {
          current := Some(current.value.(markdown := current.value.markdown + line + "\n"));
        }
      }
    }
    assert lines[..|lines|] == lines;
    if current.Some? {
      documents := documents + [current.value];
    }
  }

  lemma CountStep(lines: seq<string>, line: string, kebab: string -> string)
    ensures forall id :: (IdCount(lines + [line], kebab, id)
      == IdCount(lines, kebab, id) + (if IsHeading(line) && HeadingId(line, kebab) == id then 1 else 0))
  {
    assert (lines + [line])[..|lines|] == lines;
  }

  lemma HeadingIndicesStep(lines: seq<string>, line: string)
    ensures HeadingIndices(lines + [line])
      == HeadingIndices(lines) + (if IsHeading(line) then [|lines|] else [])
  {
    assert (lines + [line])[..|lines|] == lines;
  }

  /** A document whose section lies inside `lines` is the same in any
      longer text that keeps the headings before it. */
  lemma DocumentAtExtend(lines: seq<string>, lines': seq<string>, hs: seq<nat>, hs': seq<nat>, k: nat,
                         path: string, kebab: string -> string)
    requires HeadingPositions(lines, hs) && HeadingPositions(lines', hs')
    requires |lines| <= |lines'| && lines'[..|lines|] == lines
    requires k < |hs| && k < |hs'| && hs'[k] == hs[k]
    requires SectionEnd(lines', hs', k) == SectionEnd(lines, hs, k)
    ensures DocumentAt(lines', hs', k, path, kebab) == DocumentAt(lines, hs, k, path, kebab)
  {
    var h, e := hs[k], SectionEnd(lines, hs, k);
    PrefixAgrees(lines, lines', h, h + 1);
    PrefixAgrees(lines, lines', h + 1, e);
  }

  /** A heading line adds one document after the others. */
  lemma HeadingStep(lines: seq<string>, line: string, path: string, kebab: string -> string)
    requires IsHeading(line)
    ensures var id := HeadingId(line, kebab);
      ExplodedDocuments(lines + [line], path, kebab)
      == ExplodedDocuments(lines, path, kebab) + [Document(Parent(path) + "/" + Slug(id, IdCount(lines, kebab, id)), line)]
  {
    var lines' := lines + [line];
    HeadingIndicesStep(lines, line);
    var hs, hs' := HeadingIndices(lines), HeadingIndices(lines');
    assert hs' == hs + [|lines|];
    var docs, docs' := ExplodedDocuments(lines, path, kebab), ExplodedDocuments(lines', path, kebab);
    var id := HeadingId(line, kebab);
    var last := Document(Parent(path) + "/" + Slug(id, IdCount(lines, kebab, id)), line);
    assert lines'[..|lines|] == lines;
    forall k | 0 <= k < |hs| ensures docs'[k] == docs[k] {
      DocumentAtExtend(lines, lines', hs, hs', k, path, kebab);
    }
    assert lines'[|lines| + 1..|lines'|] == [];
    assert lines'[|lines|] == line;
    assert docs'[|hs|] == DocumentAt(lines', hs', |hs|, path, kebab);
    assert docs'[|hs|] == last;
    AppendLast(docs', docs, last);
  }

  /** The last document's markdown gains a line and its line break. */
  lemma LastDocumentGrows(lines: seq<string>, line: string, hs: seq<nat>, path: string, kebab: string -> string)
    requires HeadingPositions(lines, hs) && HeadingPositions(lines + [line], hs) && |hs| > 0
    ensures var n := |hs| - 1;
      DocumentAt(lines + [line], hs, n, path, kebab)
      == DocumentAt(lines, hs, n, path, kebab).(markdown := DocumentAt(lines, hs, n, path, kebab).markdown + line + "\n")
  {
    var lines' := lines + [line];
    var h := hs[|hs| - 1];
    var tail := lines'[h + 1..|lines'|];
    assert SectionEnd(lines', hs, |hs| - 1) == |lines'|;
    assert SectionEnd(lines, hs, |hs| - 1) == |lines|;
    assert tail == lines[h + 1..] + [line];
    assert tail[..|tail| - 1] == lines[h + 1..];
    assert Block(tail) == Block(lines[h + 1..]) + line + "\n";
    assert lines'[h] == lines[h];
    assert lines'[..h] == lines[..h];
    var d, d' := DocumentAt(lines, hs, |hs| - 1, path, kebab), DocumentAt(lines', hs, |hs| - 1, path, kebab);
    assert d'.path == d.path;
    assert lines[h + 1..SectionEnd(lines, hs, |hs| - 1)] == lines[h + 1..];
    assert d.markdown == lines[h] + Block(lines[h + 1..]);
    assert d'.markdown == lines[h] + Block(tail);
  }

  /** A line that is not a heading extends the last document, if there is one. */
  lemma PlainStep(lines: seq<string>, line: string, path: string, kebab: string -> string)
    requires !IsHeading(line)
    ensures var docs := ExplodedDocuments(lines, path, kebab);
      ExplodedDocuments(lines + [line], path, kebab)
      == if docs == [] then []
         else docs[..|docs| - 1] + [docs[|docs| - 1].(markdown := docs[|docs| - 1].markdown + line + "\n")]
  {
    var lines' := lines + [line];
    HeadingIndicesStep(lines, line);
    var hs := HeadingIndices(lines);
    assert HeadingIndices(lines') == hs;
    var docs, docs' := ExplodedDocuments(lines, path, kebab), ExplodedDocuments(lines', path, kebab);
    if docs != [] {
      var n := |hs| - 1;
      forall k | 0 <= k < n ensures docs'[k] == docs[k] {
        EarlierDocumentKept(lines, line, hs, k, path, kebab);
      }
      LastDocumentGrows(lines, line, hs, path, kebab);
      var grown := docs[n].(markdown := docs[n].markdown + line + "\n");
      assert docs'[n] == grown;
      ReplaceLast(docs', docs, grown);
    }
  }

  /** A document before the last one is not changed by one more line. */
  lemma EarlierDocumentKept(lines: seq<string>, line: string, hs: seq<nat>, k: nat, path: string, kebab: string -> string)
    requires HeadingPositions(lines, hs) && HeadingPositions(lines + [line], hs) && k + 1 < |hs|
    ensures DocumentAt(lines + [line], hs, k, path, kebab) == DocumentAt(lines, hs, k, path, kebab)
  {
    var lines' := lines + [line];
    assert lines'[..|lines|] == lines;
    assert SectionEnd(lines', hs, k) == SectionEnd(lines, hs, k) == hs[k + 1];
    DocumentAtExtend(lines, lines', hs, hs, k, path, kebab);
  }

  // ---------------------------------------------------------------------
  // Properties of explode mode

  /** Without a heading line there is no document. */
  lemma NoHeadingNoDocuments(lines: seq<string>, path: string, kebab: string -> string)
    requires forall i :: 0 <= i < |lines| ==> !IsHeading(lines[i])
    ensures ExplodedDocuments(lines, path, kebab) == []
  {
    NoHeadingIndices(lines);
  }

  lemma {:induction false} NoHeadingIndices(lines: seq<string>)
    requires forall i :: 0 <= i < |lines| ==> !IsHeading(lines[i])
    ensures HeadingIndices(lines) == []
    decreases |lines|
  {
    if lines != [] {
      NoHeadingIndices(lines[..|lines| - 1]);
    }
  }

  /** Lines before the first heading do not count towards any id. */
  lemma {:induction false} IdCountAfterPreamble(pre: seq<string>, rest: seq<string>, kebab: string -> string, id: string)
    requires forall i :: 0 <= i < |pre| ==> !IsHeading(pre[i])
    ensures IdCount(pre + rest, kebab, id) == IdCount(rest, kebab, id)
    decreases |rest|
  {
    if rest == [] {
      assert pre + rest == pre;
      IdCountWithoutHeadings(pre, kebab, id);
    } else {
      var init := rest[..|rest| - 1];
      IdCountAfterPreamble(pre, init, kebab, id);
      assert (pre + rest)[..|pre + rest| - 1] == pre + init;
    }
  }

  lemma {:induction false} IdCountWithoutHeadings(lines: seq<string>, kebab: string -> string, id: string)
    requires forall i :: 0 <= i < |lines| ==> !IsHeading(lines[i])
    ensures IdCount(lines, kebab, id) == 0
    decreases |lines|
  {
    if lines != [] {
      IdCountWithoutHeadings(lines[..|lines| - 1], kebab, id);
    }
  }

  /** Text before the first heading is dropped: it starts no document and
      belongs to none. */
  lemma {:induction false} PreambleDropped(pre: seq<string>, rest: seq<string>, path: string, kebab: string -> string)
    requires forall i :: 0 <= i < |pre| ==> !IsHeading(pre[i])
    ensures ExplodedDocuments(pre + rest, path, kebab) == ExplodedDocuments(rest, path, kebab)
    decreases |rest|
  {
    if rest == [] {
      assert pre + rest == pre;
      NoHeadingNoDocuments(pre, path, kebab);
      NoHeadingNoDocuments(rest, path, kebab);
    } else {
      var init, line := rest[..|rest| - 1], rest[|rest| - 1];
      PreambleDropped(pre, init, path, kebab);
      assert pre + rest == (pre + init) + [line];
      assert rest == init + [line];
      if IsHeading(line) {
        HeadingStep(pre + init, line, path, kebab);
        HeadingStep(init, line, path, kebab);
        IdCountAfterPreamble(pre, init, kebab, HeadingId(line, kebab));
      } else {
        PlainStep(pre + init, line, path, kebab);
        PlainStep(init, line, path, kebab);
      }
    }
  }

  /** A heading at `a` counts towards its id in every longer prefix. */
  lemma {:induction false} IdCountGrows(lines: seq<string>, a: nat, b: nat, kebab: string -> string)
    requires a < b <= |lines| && IsHeading(lines[a])
    ensures IdCount(lines[..a], kebab, HeadingId(lines[a], kebab)) < IdCount(lines[..b], kebab, HeadingId(lines[a], kebab))
    decreases b - a
  {
    var id := HeadingId(lines[a], kebab);
    assert lines[..b][..b - 1] == lines[..b - 1];
    if b == a + 1 {
      assert lines[..b][b - 1] == lines[a];
    } else {
      IdCountGrows(lines, a, b - 1, kebab);
    }
  }

  /** Different counts give different slugs of the same id. */
  lemma SlugInjective(id: string, c1: nat, c2: nat)
    requires Slug(id, c1) == Slug(id, c2)
    ensures c1 == c2
  {
    if c1 != 0 && c2 != 0 {
      var s1, s2 := NatToString(c1), NatToString(c2);
      assert Slug(id, c1)[|id| + 1..] == s1;
      assert Slug(id, c2)[|id| + 1..] == s2;
      NatToStringInjective(c1, c2);
    }
  }

  /** Two headings with the same id get different paths. Headings with
      different ids can still collide, see `SlugCollision`. */
  lemma SameIdDistinctPaths(lines: seq<string>, path: string, kebab: string -> string, k: nat, l: nat)
    requires k < l < |HeadingIndices(lines)|
    requires var hs := HeadingIndices(lines); HeadingId(lines[hs[k]], kebab) == HeadingId(lines[hs[l]], kebab)
    ensures ExplodedDocuments(lines, path, kebab)[k].path != ExplodedDocuments(lines, path, kebab)[l].path
  {
    var hs := HeadingIndices(lines);
    var docs := ExplodedDocuments(lines, path, kebab);
    var id := HeadingId(lines[hs[k]], kebab);
    var prefix := Parent(path) + "/";
    IdCountGrows(lines, hs[k], hs[l], kebab);
    var c1, c2 := IdCount(lines[..hs[k]], kebab, id), IdCount(lines[..hs[l]], kebab, id);
    assert docs[k].path == prefix + Slug(id, c1);
    assert docs[l].path == prefix + Slug(id, c2);
    if docs[k].path == docs[l].path {
      assert Slug(id, c1) == docs[k].path[|prefix|..];
      assert Slug(id, c2) == docs[l].path[|prefix|..];
      SlugInjective(id, c1, c2);
    }
  }

  lemma HeadingText(line: string, text: string)
    requires line == "# " + text
    ensures IsHeading(line) && ReplaceFirst(line, "# ", "") == text
  {
    ReplacePrefixWithNothing(line, "# ");
    assert line[2..] == text;
  }

  lemma ParentOfXPage()
    ensures Parent("/x/page") == "/x"
  {
    var parts: seq<string> := ["", "x", "page"];
    assert Join(parts[2..], '/') == "page";
    assert Join(parts[1..], '/') == "x/page";
    assert Join(parts, '/') == "/x/page";
    SplitOfJoin(parts, '/');
    assert parts[..2] == ["", "x"];
    assert Join(["", "x"], '/') == "/x";
  }

  /** One more heading: the documents so far and one for the heading. */
  lemma NextHeading(lines: seq<string>, line: string, path: string, kebab: string -> string,
                    docs: seq<Document>, id: string, count: nat)
    requires ExplodedDocuments(lines, path, kebab) == docs
    requires IsHeading(line) && HeadingId(line, kebab) == id && IdCount(lines, kebab, id) == count
    ensures ExplodedDocuments(lines + [line], path, kebab) == docs + [Document(Parent(path) + "/" + Slug(id, count), line)]
    ensures IdCount(lines + [line], kebab, id) == count + 1
  {
    HeadingStep(lines, line, path, kebab);
    CountStep(lines, line, kebab);
  }

  /** Headings `# A`, `# A`, `# B` under a base path such as `/x/page`
      (see `ParentOfXPage`) give `/x/a`, `/x/a-1`, `/x/b`, in that order. */
  lemma ExplodeExample(path: string, kebab: string -> string)
    requires Parent(path) == "/x"
    requires kebab("A") == "a" && kebab("B") == "b"
    ensures var docs := ExplodedDocuments(["# A", "# A", "# B"], path, kebab);
      |docs| == 3 && docs[0].path == "/x/a" && docs[1].path == "/x/a-1" && docs[2].path == "/x/b"
  {
    HeadingText("# A", "A");
    HeadingText("# B", "B");
    ThreeHeadings("# A", "# A", "# B", path, kebab);
    ExamplePaths("/x", "a", "b");
  }

  /** The paths of the examples, spelled out. */
  lemma ExamplePaths(parent: string, first: string, second: string)
    requires parent == "/x" && |first| == 1 && |second| == 1
    ensures parent + "/" + first == "/x/" + first
    ensures parent + "/" + first + "-" + NatToString(1) == "/x/" + first + "-1"
    ensures parent + "/" + second == "/x/" + second
  {
    assert NatToString(1) == "1";
  }

  /** Slugs are not unique: `# A`, `# A`, `# A 1` under a base path such as
      `/x/page` give `/x/a`, `/x/a-1` and `/x/a-1` again. */
  lemma SlugCollision(path: string, kebab: string -> string)
    requires Parent(path) == "/x"
    requires kebab("A") == "a" && kebab("A 1") == "a-1"
    ensures var docs := ExplodedDocuments(["# A", "# A", "# A 1"], path, kebab);
      |docs| == 3 && docs[1].path == "/x/a-1" && docs[2].path == "/x/a-1"
  {
    HeadingText("# A", "A");
    HeadingText("# A 1", "A 1");
    ThreeHeadings("# A", "# A", "# A 1", path, kebab);
    ExamplePaths("/x", "a", "b");
  }

  /** A single heading line: one document at its id, counted once. */
  lemma OneHeading(a: string, path: string, kebab: string -> string)
    requires IsHeading(a)
    ensures ExplodedDocuments([a], path, kebab) == [Document(Parent(path) + "/" + HeadingId(a, kebab), a)]
    ensures forall id :: IdCount([a], kebab, id) == (if id == HeadingId(a, kebab) then 1 else 0)
  {
    NoHeadingNoDocuments([], path, kebab);
    assert [] + [a] == [a];
    NextHeading([], a, path, kebab, [], HeadingId(a, kebab), 0);
    CountStep([], a, kebab);
  }

  /** Two heading lines with the same id. */
  lemma TwoHeadingsSameId(a: string, b: string, path: string, kebab: string -> string)
    requires IsHeading(a) && IsHeading(b)
    requires HeadingId(a, kebab) == HeadingId(b, kebab)
    ensures var idA := HeadingId(a, kebab);
      ExplodedDocuments([a, b], path, kebab)
      == [Document(Parent(path) + "/" + idA, a), Document(Parent(path) + "/" + Slug(idA, 1), b)]
    ensures forall id :: id != HeadingId(a, kebab) ==> IdCount([a, b], kebab, id) == 0
  {
    var idA := HeadingId(a, kebab);
    OneHeading(a, path, kebab);
    var d0 := Document(Parent(path) + "/" + idA, a);
    assert [a] + [b] == [a, b];
    NextHeading([a], b, path, kebab, [d0], idA, 1);
    CountStep([a], b, kebab);
  }

  /** Three heading lines where the first two share an id and the third has
      another one. */
  lemma ThreeHeadings(a: string, b: string, c: string, path: string, kebab: string -> string)
    requires IsHeading(a) && IsHeading(b) && IsHeading(c)
    requires HeadingId(a, kebab) == HeadingId(b, kebab) != HeadingId(c, kebab)
    ensures var docs := ExplodedDocuments([a, b, c], path, kebab);
      var prefix := Parent(path) + "/";
      var idA, idC := HeadingId(a, kebab), HeadingId(c, kebab);
      |docs| == 3 && docs[0].path == prefix + idA && docs[1].path == prefix + idA + "-" + NatToString(1)
      && docs[2].path == prefix + idC
  {
    var idA, idC := HeadingId(a, kebab), HeadingId(c, kebab);
    TwoHeadingsSameId(a, b, path, kebab);
    var d0 := Document(Parent(path) + "/" + idA, a);
    var d1 := Document(Parent(path) + "/" + Slug(idA, 1), b);
    assert [a, b] + [c] == [a, b, c];
    NextHeading([a, b], c, path, kebab, [d0, d1], idC, 0);
  }

  /** The heading line keeps no line break, so the line after it is joined
      to it: `# A` then `Hello` gives the markdown `# AHello` and a line break. */
  lemma HeadingJoinsNextLine(path: string, kebab: string -> string)
    ensures ExplodedDocuments(["# A", "Hello"], path, kebab)[0].markdown == "# AHello\n"
  {
    HeadingText("# A", "A");
    assert !IsHeading("Hello") by {
      assert "Hello"[..2][0] == 'H';
    }
    HeadingThenLine("# A", "Hello", path, kebab);
    assert "# A" + "Hello" + "\n" == "# AHello\n";
  }

  /** A heading and a plain line give one document: the heading line with
      the plain line and a line break right after it. */
  lemma HeadingThenLine(heading: string, line: string, path: string, kebab: string -> string)
    requires IsHeading(heading) && !IsHeading(line)
    ensures var docs := ExplodedDocuments([heading, line], path, kebab);
      |docs| == 1 && docs[0].markdown == heading + line + "\n"
  {
    NoHeadingNoDocuments([], path, kebab);
    assert [] + [heading] == [heading];
    HeadingStep([], heading, path, kebab);
    assert [heading] + [line] == [heading, line];
    PlainStep([heading], line, path, kebab);
  }

  // ---------------------------------------------------------------------
  // The constructor id

  /** A value the source's `idCounter` can give for an id: a number, a
      string, or the function `Object` that a plain object inherits as its
      `constructor` property. */
  datatype CountValue = Num(n: nat) | Str(s: string) | ObjectFunction

  /** The text the function `Object` gives in a template string under
      JavaScriptCore, the engine of the Bun runtime the bundler runs on. */
  const ObjectSource: string := "function Object() {\n    [native code]\n}"

  /** `idCounter[id]` on a plain object: its own entry, else what it
      inherits from `Object.prototype`. `kebabCase` gives lower-case words
      joined by `-`, and of the names on `Object.prototype` only
      `constructor` has that form. */
  function ReadCount(counter: map<string, CountValue>, id: string): (v: Option<CountValue>)
    ensures id in counter ==> v == Some(counter[id])
    ensures id !in counter ==> (v.Some? <==> id == "constructor")
  {
    if id in counter then Some(counter[id])
    else if id == "constructor" then Some(ObjectFunction)
    else None
  }

  /** `idCounter[id] || 0`. */
  function CountOrZero(v: Option<CountValue>): CountValue
  {
    match v
    case None => Num(0)
    case Some(Num(n)) => Num(n)
    case Some(Str(s)) => if s == "" then Num(0) else Str(s)
    case Some(ObjectFunction) => ObjectFunction
  }

  /** `count + 1`: addition on a number, string concatenation otherwise. */
  function Increment(count: CountValue): CountValue
  {
    match count
    case Num(n) => Num(n + 1)
    case Str(s) => Str(s + "1")
    case ObjectFunction => Str(ObjectSource + "1")
  }

  /** `${count}`. */
  function CountText(count: CountValue): string
  {
    match count
    case Num(n) => NatToString(n)
    case Str(s) => s
    case ObjectFunction => ObjectSource
  }

  /** `id`, then `${id}-${count}` when `count !== 0`. */
  function SlugAsWritten(id: string, count: CountValue): (slug: string)
    ensures forall n: nat :: count == Num(n) ==> slug == Slug(id, n)
  {
    if count == Num(0) then id else id + "-" + CountText(count)
  }

  /** The variables of the explode loop: the documents pushed so far, the
      counter and the document being filled. */
  datatype ExplodeState = ExplodeState(documents: seq<Document>, counter: map<string, CountValue>, current: Option<Document>)

  /** One pass of the explode loop, with the counter as the source keeps it. */
  function ExplodeStep(st: ExplodeState, line: string, path: string, kebab: string -> string): ExplodeState
  {
    if IsHeading(line) then
      var documents := if st.current.Some? then st.documents + [st.current.value] else st.documents;
      var id := HeadingId(line, kebab);
      var count := CountOrZero(ReadCount(st.counter, id));
      ExplodeState(documents, st.counter[id := Increment(count)],
                   Some(Document(Parent(path) + "/" + SlugAsWritten(id, count), line)))
    else if st.current.Some? then
      st.(current := Some(st.current.value.(markdown := st.current.value.markdown + line + "\n")))
    else st
  }

  /** The loop state after the given lines, from an empty counter. */
  function ExplodeRun(lines: seq<string>, path: string, kebab: string -> string): ExplodeState
  {
    if lines == [] then ExplodeState([], map[], None)
    else ExplodeStep(ExplodeRun(lines[..|lines| - 1], path, kebab), lines[|lines| - 1], path, kebab)
  }

  /** The documents explode mode makes as the source is written: the
      pushed ones and the last one. */
  function ExplodedDocumentsAsWritten(lines: seq<string>, path: string, kebab: string -> string): seq<Document>
  {
    var st := ExplodeRun(lines, path, kebab);
    if st.current.Some? then st.documents + [st.current.value] else st.documents
  }

  /** The loop state agrees with the corrected model: every counted id
      holds its count, `constructor` was never stored, and the documents
      are those of `ExplodedDocuments`. */
  ghost predicate RunAgrees(st: ExplodeState, lines: seq<string>, path: string, kebab: string -> string)
  {
    && "constructor" !in st.counter
    && (forall id :: id in st.counter ==> st.counter[id] == Num(IdCount(lines, kebab, id)))
    && (forall id :: id !in st.counter ==> IdCount(lines, kebab, id) == 0)
    && (st.current.None? ==> st.documents == [] && HeadingIndices(lines) == [])
    && (st.current.Some? ==> st.documents + [st.current.value] == ExplodedDocuments(lines, path, kebab))
  }

  /** No heading of `lines` has the id `constructor`. */
  predicate NoConstructorHeading(lines: seq<string>, kebab: string -> string)
  {
    forall i :: 0 <= i < |lines| && IsHeading(lines[i]) ==> HeadingId(lines[i], kebab) != "constructor"
  }

  /** As long as no heading has the id `constructor`, the counter as
      written counts exactly as the corrected one. */
  lemma {:induction false} RunAgreesWithCorrected(lines: seq<string>, path: string, kebab: string -> string)
    requires NoConstructorHeading(lines, kebab)
    ensures RunAgrees(ExplodeRun(lines, path, kebab), lines, path, kebab)
    decreases |lines|
  {
    if lines == [] {
      NoHeadingIndices(lines);
    } else {
      var init, line := lines[..|lines| - 1], lines[|lines| - 1];
      assert NoConstructorHeading(init, kebab) by {
        forall i | 0 <= i < |init| && IsHeading(init[i]) ensures HeadingId(init[i], kebab) != "constructor" {
          assert init[i] == lines[i];
        }
      }
      RunAgreesWithCorrected(init, path, kebab);
      assert lines == init + [line];
      RunAgreesStep(ExplodeRun(init, path, kebab), init, line, path, kebab);
    }
  }

  lemma RunAgreesStep(st: ExplodeState, lines: seq<string>, line: string, path: string, kebab: string -> string)
    requires RunAgrees(st, lines, path, kebab)
    requires IsHeading(line) ==> HeadingId(line, kebab) != "constructor"
    ensures RunAgrees(ExplodeStep(st, line, path, kebab), lines + [line], path, kebab)
  {
    if IsHeading(line) {
      RunAgreesHeading(st, lines, line, path, kebab);
    } else {
      RunAgreesPlain(st, lines, line, path, kebab);
    }
  }

  lemma RunAgreesHeading(st: ExplodeState, lines: seq<string>, line: string, path: string, kebab: string -> string)
    requires RunAgrees(st, lines, path, kebab)
    requires IsHeading(line) && HeadingId(line, kebab) != "constructor"
    ensures RunAgrees(ExplodeStep(st, line, path, kebab), lines + [line], path, kebab)
  {
    var id := HeadingId(line, kebab);
    var c := IdCount(lines, kebab, id);
    CountStep(lines, line, kebab);
    HeadingStep(lines, line, path, kebab);
    assert CountOrZero(ReadCount(st.counter, id)) == Num(c);
    var documents := if st.current.Some? then st.documents + [st.current.value] else st.documents;
    assert documents == ExplodedDocuments(lines, path, kebab) by {
      if st.current.None? {
        assert |ExplodedDocuments(lines, path, kebab)| == |HeadingIndices(lines)| == 0;
      }
    }
    var next := ExplodeStep(st, line, path, kebab);
    assert next == ExplodeState(documents, st.counter[id := Num(c + 1)],
                                Some(Document(Parent(path) + "/" + Slug(id, c), line)));
  }

  lemma RunAgreesPlain(st: ExplodeState, lines: seq<string>, line: string, path: string, kebab: string -> string)
    requires RunAgrees(st, lines, path, kebab)
    requires !IsHeading(line)
    ensures RunAgrees(ExplodeStep(st, line, path, kebab), lines + [line], path, kebab)
  {
    CountStep(lines, line, kebab);
    HeadingIndicesStep(lines, line);
    PlainStep(lines, line, path, kebab);
    if st.current.Some? {
      var docs := ExplodedDocuments(lines, path, kebab);
      assert docs[..|docs| - 1] == st.documents;
      assert docs[|docs| - 1] == st.current.value;
    }
  }

  /** On a body in which no heading has the id `constructor`, the source's
      counter and the corrected one give the same documents. */
  lemma AsWrittenAgrees(lines: seq<string>, path: string, kebab: string -> string)
    requires NoConstructorHeading(lines, kebab)
    ensures ExplodedDocumentsAsWritten(lines, path, kebab) == ExplodedDocuments(lines, path, kebab)
  {
    RunAgreesWithCorrected(lines, path, kebab);
  }

  /** As written, a first heading `# Constructor` reads the inherited
      `Object` as its count, so its page is not at `<parent>/constructor`,
      where the corrected model puts it. */
  lemma ConstructorSlugAsWritten(heading: string, path: string, kebab: string -> string)
    requires heading == "# Constructor" && kebab("Constructor") == "constructor"
    ensures |ExplodedDocumentsAsWritten([heading], path, kebab)| == 1
    ensures ExplodedDocumentsAsWritten([heading], path, kebab)[0].path == Parent(path) + "/" + ("constructor-" + ObjectSource)
    ensures ExplodedDocuments([heading], path, kebab)[0].path == Parent(path) + "/" + "constructor"
    ensures ExplodedDocumentsAsWritten([heading], path, kebab) != ExplodedDocuments([heading], path, kebab)
  {
    HeadingText(heading, "Constructor");
    OneHeading(heading, path, kebab);
    var first := FirstConstructorRun(heading, path, kebab);
    assert |"constructor-" + ObjectSource| != |"constructor"|;
  }

  /** The loop state after one `# Constructor` heading. */
  lemma FirstConstructorRun(heading: string, path: string, kebab: string -> string) returns (st: ExplodeState)
    requires IsHeading(heading) && HeadingId(heading, kebab) == "constructor"
    ensures st == ExplodeRun([heading], path, kebab)
    ensures st == ExplodeState([], map["constructor" := Str(ObjectSource + "1")],
                               Some(Document(Parent(path) + "/" + ("constructor-" + ObjectSource), heading)))
  {
    assert [heading][..0] == [];
    var empty := ExplodeRun([], path, kebab);
    assert empty == ExplodeState([], map[], None);
    st := ExplodeRun([heading], path, kebab);
    assert st == ExplodeStep(empty, heading, path, kebab);
    var count := CountOrZero(ReadCount(map[], "constructor"));
    assert count == ObjectFunction;
    assert Increment(count) == Str(ObjectSource + "1");
    assert "constructor" + "-" == "constructor-";
    assert SlugAsWritten("constructor", count) == "constructor-" + ObjectSource;
    assert st.counter == map[]["constructor" := Increment(count)];
  }

  /** A second `# Constructor` reads the string the first one stored, so
      its slug ends in the function's text and a `1`, where the corrected
      model gives `constructor-1`. */
  lemma SecondConstructorAsWritten(heading: string, path: string, kebab: string -> string)
    requires heading == "# Constructor" && kebab("Constructor") == "constructor"
    ensures var docs := ExplodedDocumentsAsWritten([heading, heading], path, kebab);
      |docs| == 2 && docs[1].path == Parent(path) + "/" + ("constructor-" + (ObjectSource + "1"))
  {
    HeadingText(heading, "Constructor");
    SecondConstructorRun(heading, path, kebab);
  }

  /** Two headings with the id `constructor`, as written. */
  lemma SecondConstructorRun(heading: string, path: string, kebab: string -> string)
    requires IsHeading(heading) && HeadingId(heading, kebab) == "constructor"
    ensures var docs := ExplodedDocumentsAsWritten([heading, heading], path, kebab);
      |docs| == 2 && docs[1].path == Parent(path) + "/" + ("constructor-" + (ObjectSource + "1"))
  {
    var first := FirstConstructorRun(heading, path, kebab);
    assert [heading, heading][..1] == [heading];
    var text := ObjectSource + "1";
    assert first.current.Some? && first.counter == map["constructor" := Str(text)];
    assert |text| == |ObjectSource| + 1;
    StoredTextStep(first, heading, path, kebab, text);
    var second := ExplodeRun([heading, heading], path, kebab);
    assert second == ExplodeStep(first, heading, path, kebab);
    assert ExplodedDocumentsAsWritten([heading, heading], path, kebab) == second.documents + [second.current.value];
  }

  /** A `constructor` heading after a non-empty string was stored for that
      id takes the string as its suffix. */
  lemma StoredTextStep(st: ExplodeState, heading: string, path: string, kebab: string -> string, text: string)
    requires IsHeading(heading) && HeadingId(heading, kebab) == "constructor"
    requires st.current.Some? && st.counter == map["constructor" := Str(text)] && text != ""
    ensures var next := ExplodeStep(st, heading, path, kebab);
      |next.documents| == |st.documents| + 1 && next.current.Some?
      && next.current.value.path == Parent(path) + "/" + ("constructor-" + text)
  {
    assert CountOrZero(ReadCount(st.counter, "constructor")) == Str(text);
    assert "constructor" + "-" == "constructor-";
  }

  /** With a counter that holds only what was counted, the first heading
      of any id, `constructor` included, gets the id itself as its slug. */
  lemma FirstHeadingKeepsId(lines: seq<string>, path: string, kebab: string -> string, k: nat)
    requires k < |HeadingIndices(lines)|
    requires var hs := HeadingIndices(lines);
      forall l :: 0 <= l < k ==> HeadingId(lines[hs[l]], kebab) != HeadingId(lines[hs[k]], kebab)
    ensures var hs := HeadingIndices(lines);
      ExplodedDocuments(lines, path, kebab)[k].path == Parent(path) + "/" + HeadingId(lines[hs[k]], kebab)
  {
    var hs := HeadingIndices(lines);
    var id := HeadingId(lines[hs[k]], kebab);
    IdCountBeforeFirst(lines, hs, k, kebab, id, hs[k]);
  }

  /** Headings before the `k`-th with other ids leave the count of its id at 0. */
  lemma {:induction false} IdCountBeforeFirst(lines: seq<string>, hs: seq<nat>, k: nat, kebab: string -> string, id: string, n: nat)
    requires hs == HeadingIndices(lines) && k < |hs| && n <= hs[k]
    requires forall l :: 0 <= l < k ==> HeadingId(lines[hs[l]], kebab) != id
    ensures IdCount(lines[..n], kebab, id) == 0
    decreases n
  {
    if n > 0 {
      assert lines[..n][..n - 1] == lines[..n - 1];
      IdCountBeforeFirst(lines, hs, k, kebab, id, n - 1);
      var line := lines[n - 1];
      if IsHeading(line) {
        assert n - 1 in hs;
        var l :| 0 <= l < |hs| && hs[l] == n - 1;
        assert l < k;
      }
    }
  }

  // ---------------------------------------------------------------------
  // Rendering and page assembly

  /** The text of the first `<tag>…</tag>` on one line, `""` when there is none. */
  function FirstTagText(html: string, open: string, close: string): string
  {
    Captured(html, open, close, false).GetOr("")
  }

  /** `data[key] || fallback || ""`: the front-matter field when it is
      truthy, the fallback text otherwise. */
  function Fallback(data: map<string, Value>, key: string, fallback: string): (v: Value)
    ensures Truthy(Field(data, key)) ==> v == Field(data, key)
    ensures !Truthy(Field(data, key)) ==> v == Text(fallback)
  {
    Or(Or(Field(data, key), Text(fallback)), Text(""))
  }

  /** The page made of one document: the HTML is the render of the
      document's own markdown; title and description fall back from the
      front matter to the first `<h1>` and `<p>` of the HTML and then to
      `""`; the layout falls back to `"default"`. */
  function RenderPage(libs: Libraries, data: map<string, Value>, doc: Document): Page
  {
    var html := libs.render(doc.markdown);
    Page(doc.path,
         Fallback(data, "title", FirstTagText(html, "<h1>", "</h1>")),
         Fallback(data, "description", FirstTagText(html, "<p>", "</p>")),
         Or(Field(data, "layout"), Text("default")),
         Some(html),
         CustomFields(data))
  }

  /** The documents of a body: the whole body at the page's own path, or
      one per heading in explode mode. */
  function Documents(body: string, path: string, explode: bool, kebab: string -> string): seq<Document>
  {
    if !explode then [Document(path, body)]
    else ExplodedDocuments(Split(body, '\n'), path, kebab)
  }

  /** The pages `fromMarkdown` returns, or the error the YAML loader throws. */
  function MarkdownPages(libs: Libraries, path: string, markdown: string, explode: bool): Result<seq<Page>, Exception>
  {
    match FrontMatterData(libs, markdown)
    case Failure(e) => Failure(e)
    case Success(data) =>
      Success(RenderedPages(libs, data, Documents(Body(markdown), path, explode, libs.kebabCase)))
  }

  /** One page per document, in order. */
  function RenderedPages(libs: Libraries, data: map<string, Value>, docs: seq<Document>): (pages: seq<Page>)
    ensures |pages| == |docs|
    ensures forall k :: 0 <= k < |docs| ==> pages[k] == RenderPage(libs, data, docs[k])
  {
    seq(|docs|, k requires 0 <= k < |docs| => RenderPage(libs, data, docs[k]))
  }

  /** The `map` over the documents and the `forEach` that pushes each page. */
  method RenderDocuments(libs: Libraries, data: map<string, Value>, documents: seq<Document>)
    returns (pages: seq<Page>)
    ensures pages == RenderedPages(libs, data, documents)
  {
    ghost var expected := RenderedPages(libs, data, documents);
    pages := [];
    for k := 0 to |documents|
      invariant pages == expected[..k]
    {
      TakeOneMore(expected, k);
      pages := pages + [RenderPage(libs, data, documents[k])];
    }
    TakeAll(expected);
  }

  /** `PageBuilder.fromMarkdown`. */
  method FromMarkdown(libs: Libraries, path: string, markdown: string, explode: bool)
    returns (r: Result<seq<Page>, Exception>)
    ensures r == MarkdownPages(libs, path, markdown, explode)
  {
    var loaded := FrontMatterData(libs, markdown);
    if loaded.Failure? {
      return Failure(loaded.error);
    }
    var data := loaded.value;
    var body := Body(markdown);
    var documents: seq<Document>;
    if !explode {
      documents := [Document(path, body)];
    } else {
      var lines := Split(body, '\n');
      documents := ExplodeLines(lines, path, libs.kebabCase);
    }
    assert documents == Documents(body, path, explode, libs.kebabCase);
    var pages := RenderDocuments(libs, data, documents);
    return Success(pages);
  }

  // ---------------------------------------------------------------------
  // Properties of the pages

  /** Only a YAML error makes the call fail, and it is passed on unchanged. */
  lemma FailsExactlyOnYamlError(libs: Libraries, path: string, markdown: string, explode: bool)
    ensures MarkdownPages(libs, path, markdown, explode).Failure?
      <==> libs.loadYaml(FrontMatterText(markdown)).Failure?
    ensures libs.loadYaml(FrontMatterText(markdown)).Failure? ==>
      MarkdownPages(libs, path, markdown, explode).error == libs.loadYaml(FrontMatterText(markdown)).error
  {
  }

  /** Without explode there is exactly one page, at the given path, holding
      the render of the whole body. */
  lemma SinglePage(libs: Libraries, path: string, markdown: string)
    requires libs.loadYaml(FrontMatterText(markdown)).Success?
    ensures var r := MarkdownPages(libs, path, markdown, false);
      r.Success? && |r.value| == 1 && r.value[0].path == path
      && r.value[0].html == Some(libs.render(Body(markdown)))
  {
  }

  /** In explode mode there is one page per heading line of the body, in
      order; each sits beside the base path under its slug and holds the
      render of its own section. */
  lemma ExplodedPages(libs: Libraries, path: string, markdown: string)
    requires libs.loadYaml(FrontMatterText(markdown)).Success?
    ensures var r := MarkdownPages(libs, path, markdown, true);
      var lines := Split(Body(markdown), '\n');
      var hs := HeadingIndices(lines);
      r.Success? && |r.value| == |hs|
      && forall k :: 0 <= k < |hs| ==>
           var id := HeadingId(lines[hs[k]], libs.kebabCase);
           && r.value[k].path == Parent(path) + "/" + Slug(id, IdCount(lines[..hs[k]], libs.kebabCase, id))
           && r.value[k].html == Some(libs.render(lines[hs[k]] + Block(lines[hs[k] + 1..SectionEnd(lines, hs, k)])))
  {
  }

  /** Every page carries each front-matter field whose name the page does
      not set itself, and no other custom field. */
  lemma CustomFieldsOnEveryPage(libs: Libraries, path: string, markdown: string, explode: bool, k: nat)
    requires MarkdownPages(libs, path, markdown, explode).Success?
    requires k < |MarkdownPages(libs, path, markdown, explode).value|
    ensures var data := FrontMatterData(libs, markdown).value;
      var custom := MarkdownPages(libs, path, markdown, explode).value[k].custom;
      && (forall key :: key in data && key !in Reserved ==> key in custom && custom[key] == data[key])
      && (forall key :: key in custom ==> key in data && key !in Reserved)
  {
  }

  /** A truthy front-matter title, description or layout is used as it is. */
  lemma FrontMatterFieldsWin(libs: Libraries, data: map<string, Value>, doc: Document)
    ensures Truthy(Field(data, "title")) ==> RenderPage(libs, data, doc).title == data["title"]
    ensures Truthy(Field(data, "description")) ==> RenderPage(libs, data, doc).description == data["description"]
    ensures Truthy(Field(data, "layout")) ==> RenderPage(libs, data, doc).layout == data["layout"]
    ensures !Truthy(Field(data, "layout")) ==> RenderPage(libs, data, doc).layout == Text("default")
  {
  }

  /** Without a truthy front-matter title, the title is the text of the
      first `<h1>` of the rendered HTML, wherever it is. */
  lemma TitleFromFirstHeading(libs: Libraries, data: map<string, Value>, doc: Document,
                              pre: string, heading: string, post: string)
    requires !Truthy(Field(data, "title"))
    requires libs.render(doc.markdown) == pre + "<h1>" + heading + "</h1>" + post
    requires IndexOf(pre + "<h1>", "<h1>", 0) == Some(|pre|)
    requires IndexOf(heading + "</h1>", "</h1>", 0) == Some(|heading|)
    requires forall i :: 0 <= i < |heading| ==> !IsLineTerminator(heading[i])
    ensures RenderPage(libs, data, doc).title == Text(heading)
  {
    var html := libs.render(doc.markdown);
    MatchOfDelimited(pre, "<h1>", heading, "</h1>", post, false);
    assert FirstTagText(html, "<h1>", "</h1>") == heading;
  }

  /** Without a truthy front-matter description or any one-line `<p>`, the
      description is `""`. */
  lemma DescriptionDefaultsToEmpty(libs: Libraries, data: map<string, Value>, doc: Document)
    requires !Truthy(Field(data, "description"))
    requires Captured(libs.render(doc.markdown), "<p>", "</p>", false).None?
    ensures RenderPage(libs, data, doc).description == Text("")
  {
  }

  /** The first `---` block is taken wherever it sits in the text, and only
      it is cut out. */
  lemma FrontMatterAnywhere(markdown: string, pre: string, yamlText: string, post: string)
    requires markdown == pre + FrontMatterOpen + yamlText + FrontMatterClose + post
    requires IndexOf(pre + FrontMatterOpen, FrontMatterOpen, 0) == Some(|pre|)
    requires IndexOf(yamlText + FrontMatterClose, FrontMatterClose, 0) == Some(|yamlText|)
    ensures FrontMatterText(markdown) == yamlText && Body(markdown) == pre + post
  {
    MatchOfDelimited(pre, FrontMatterOpen, yamlText, FrontMatterClose, post, true);
  }

  /** Without a block the body is the whole text and the front matter is
      loaded from `""`; when that loads to nothing the data is empty. */
  lemma NoFrontMatter(libs: Libraries, markdown: string)
    requires Captured(markdown, FrontMatterOpen, FrontMatterClose, true).None?
    ensures Body(markdown) == markdown && FrontMatterText(markdown) == ""
    ensures libs.loadYaml("") == Success(None) ==> FrontMatterData(libs, markdown) == Success(map[])
  {
    NoMatchKeepsText(markdown, FrontMatterOpen, FrontMatterClose, true);
  }
}
