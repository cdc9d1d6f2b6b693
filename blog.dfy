/**
 * The metadata a blog post derives at write time (src/lib/blog/blog.ts):
 * the URL slug made from the title, and the read time estimated from the
 * Editor.js block document.
 */
module Blog {
  import opened Wrappers
  import opened Sequences
  import opened JsStrings

  // ---------------------------------------------------------------------------
  // generateSlug: lowercase, drop [^a-z0-9 -], turn \s+ into "-", collapse
  // "-+" into "-", trim.
  // ---------------------------------------------------------------------------

  /** The characters kept by `replace(/[^a-z0-9 -]/g, "")`. */
  predicate IsSlugSourceChar(c: char) {
    IsLowerAlnum(c) || c == ' ' || c == '-'
  }

  /** A well-formed slug: only `a`-`z`, `0`-`9` and `-`, never two hyphens in a row. */
  predicate IsSlug(s: string) {
    (forall i :: 0 <= i < |s| ==> IsLowerAlnumOrHyphen(s[i])) && NoDoubleHyphen(s)
  }

  /** `s.replace(/[^a-z0-9 -]/g, "")`: the characters of `[a-z0-9 -]`, in
      order, each blank and each hyphen among them. */
  function RemoveSpecialChars(s: string): (r: string)
    ensures |r| <= |s|
    ensures forall i :: 0 <= i < |r| ==> IsSlugSourceChar(r[i])
    ensures IsSubsequence(r, s)
    ensures CountChar(r, ' ') == CountChar(s, ' ') && CountChar(r, '-') == CountChar(s, '-')
    ensures s != [] && IsSlugSourceChar(s[0]) ==> r != [] && r[0] == s[0]
    ensures s != [] && IsSlugSourceChar(s[|s| - 1]) ==> r != [] && r[|r| - 1] == s[|s| - 1]
  {
    if s == [] then []
    else if IsSlugSourceChar(s[0]) then
      var rest := RemoveSpecialChars(s[1..]);
      assert ([s[0]] + rest)[0] == s[0] && ([s[0]] + rest)[1..] == rest;
      [s[0]] + rest
    else
      var rest := RemoveSpecialChars(s[1..]);
      assert rest == [] || IsSubsequence(rest, s[1..]);
      rest
  }

  /**
   * `s.replace(/\s+/g, "-")`: every maximal run of whitespace becomes one
   * hyphen. A whitespace character followed by whitespace is dropped; the last
   * of a run becomes the hyphen.
   */
  function HyphenateWhitespace(s: string): (r: string)
    ensures forall i :: 0 <= i < |r| ==> !IsWhitespace(r[i])
    ensures forall i :: 0 <= i < |r| ==> r[i] == '-' || r[i] in s
    ensures s != [] ==> r != [] && r[0] == (if IsWhitespace(s[0]) then '-' else s[0])
    ensures s != [] ==> r[|r| - 1] == (if IsWhitespace(s[|s| - 1]) then '-' else s[|s| - 1])
  {
    if s == [] then []
    else if IsWhitespace(s[0]) then
      (if |s| > 1 && IsWhitespace(s[1]) then HyphenateWhitespace(s[1..])
       else "-" + HyphenateWhitespace(s[1..]))
    else [s[0]] + HyphenateWhitespace(s[1..])
  }

  /** Hyphenation works run by run: a boundary that does not fall inside a run
      of whitespace splits the result. */
  lemma {:induction false} HyphenateWhitespaceSplit(a: string, b: string)
    requires a == [] || b == [] || !IsWhitespace(a[|a| - 1]) || !IsWhitespace(b[0])
    ensures HyphenateWhitespace(a + b) == HyphenateWhitespace(a) + HyphenateWhitespace(b)
  {
    if a == [] {
      assert a + b == b;
    } else {
      var x, t := a[0], a[1..];
      ConcatTail(a, b);
      HyphenateWhitespaceSplit(t, b);
      if t == [] {
        assert t + b == b;
      } else {
        assert (a + b)[1] == a[1];
      }
      if !(IsWhitespace(x) && t != [] && IsWhitespace(t[0])) {
        var h := if IsWhitespace(x) then "-" else [x];
        assert HyphenateWhitespace(a) == h + HyphenateWhitespace(t);
        ConcatAssoc(h, HyphenateWhitespace(t), HyphenateWhitespace(b));
      }
    }
  }

  /** A non-empty run of whitespace becomes exactly one hyphen. */
  lemma {:induction false} HyphenateWhitespaceRun(w: string)
    requires w != [] && forall i :: 0 <= i < |w| ==> IsWhitespace(w[i])
    ensures HyphenateWhitespace(w) == "-"
  {
    if |w| > 1 {
      HyphenateWhitespaceRun(w[1..]);
    }
  }

  /** The first four steps of `generateSlug`, before the final `trim`. */
  function SlugBeforeTrim(title: string): (r: string)
    ensures IsSlug(r)
    ensures forall i :: 0 <= i < |r| ==> !IsWhitespace(r[i])
  {
    var kept := RemoveSpecialChars(ToLower(title));
    var hyphenated := HyphenateWhitespace(kept);
    assert forall i :: 0 <= i < |hyphenated| ==> IsLowerAlnumOrHyphen(hyphenated[i]);
    CollapseHyphens(hyphenated)
  }

  /** `generateSlug(title)` of src/lib/blog/blog.ts. */
  function GenerateSlug(title: string): (slug: string)
    ensures IsSlug(slug)
  {
    var s := SlugBeforeTrim(title);
    TrimIdentity(s);
    Trim(s)
  }

  /** The closing `trim()` changes nothing: no whitespace is left by then. */
  lemma SlugTrimIsNoOp(title: string)
    ensures GenerateSlug(title) == SlugBeforeTrim(title)
  {
    TrimIdentity(SlugBeforeTrim(title));
  }

  lemma {:induction false} RemoveSpecialCharsIdentity(s: string)
    requires forall i :: 0 <= i < |s| ==> IsSlugSourceChar(s[i])
    ensures RemoveSpecialChars(s) == s
  {
    if s != [] {
      RemoveSpecialCharsIdentity(s[1..]);
    }
  }

  lemma {:induction false} HyphenateWhitespaceIdentity(s: string)
    requires forall i :: 0 <= i < |s| ==> !IsWhitespace(s[i])
    ensures HyphenateWhitespace(s) == s
  {
    if s != [] {
      HyphenateWhitespaceIdentity(s[1..]);
    }
  }

  /** A well-formed slug is a fixed point of `generateSlug`. */
  lemma SlugFixpoint(s: string)
    requires IsSlug(s)
    ensures GenerateSlug(s) == s
  {
    ToLowerIdentity(s);
    assert ToLower(s) == s;
    RemoveSpecialCharsIdentity(s);
    assert RemoveSpecialChars(ToLower(s)) == s;
    HyphenateWhitespaceIdentity(s);
    assert HyphenateWhitespace(RemoveSpecialChars(ToLower(s))) == s;
    CollapseHyphensIdentity(s);
    assert SlugBeforeTrim(s) == s;
    SlugTrimIsNoOp(s);
  }

  /** `generateSlug` is idempotent. */
  lemma SlugIdempotent(title: string)
    ensures GenerateSlug(GenerateSlug(title)) == GenerateSlug(title)
  {
    SlugFixpoint(GenerateSlug(title));
  }

  lemma {:induction false} RemoveSpecialCharsKeepsAlnum(s: string)
    ensures AlnumOf(RemoveSpecialChars(s)) == AlnumOf(s)
  {
    if s != [] {
      RemoveSpecialCharsKeepsAlnum(s[1..]);
    }
  }

  lemma {:induction false} HyphenateWhitespaceKeepsAlnum(s: string)
    ensures AlnumOf(HyphenateWhitespace(s)) == AlnumOf(s)
  {
    if s != [] {
      HyphenateWhitespaceKeepsAlnum(s[1..]);
    }
  }

  /** The letters and digits of the slug are those of the lowercased title, in order. */
  lemma SlugKeepsAlnum(title: string)
    ensures AlnumOf(GenerateSlug(title)) == AlnumOf(ToLower(title))
  {
    var lower := ToLower(title);
    var kept := RemoveSpecialChars(lower);
    RemoveSpecialCharsKeepsAlnum(lower);
    HyphenateWhitespaceKeepsAlnum(kept);
    CollapseHyphensKeepsAlnum(HyphenateWhitespace(kept));
    SlugTrimIsNoOp(title);
  }

  lemma {:induction false} RemoveSpecialCharsWithoutSeparators(s: string)
    requires ' ' !in s && '-' !in s
    ensures RemoveSpecialChars(s) == AlnumOf(s)
  {
    if s != [] {
      RemoveSpecialCharsWithoutSeparators(s[1..]);
    }
  }

  /**
   * A title with no space and no hyphen gives a slug with no hyphen: tabs,
   * newlines and punctuation are deleted, not turned into hyphens.
   */
  lemma SlugWithoutSeparators(title: string)
    requires ' ' !in title && '-' !in title
    ensures GenerateSlug(title) == AlnumOf(ToLower(title))
  {
    var lower := ToLower(title);
    assert ' ' !in lower && '-' !in lower by {
      forall i | 0 <= i < |lower| ensures lower[i] != ' ' && lower[i] != '-' {
        assert title[i] in title;
      }
    }
    RemoveSpecialCharsWithoutSeparators(lower);
    var a := AlnumOf(lower);
    WordHasNoWhitespace(a);
    HyphenateWhitespaceIdentity(a);
    WordHasNoDoubleHyphen(a);
    CollapseHyphensIdentity(a);
    SlugTrimIsNoOp(title);
  }

  /**
   * Spaces at either end of the title survive as hyphens at that end of the
   * slug: the closing `trim` strips whitespace only, and none is left.
   */
  lemma SlugKeepsEdgeHyphens(title: string)
    requires title != []
    ensures title[0] == ' ' ==> GenerateSlug(title) != [] && GenerateSlug(title)[0] == '-'
    ensures title[|title| - 1] == ' ' ==>
      GenerateSlug(title) != [] && GenerateSlug(title)[|GenerateSlug(title)| - 1] == '-'
  {
    var lower := ToLower(title);
    var kept := RemoveSpecialChars(lower);
    var hyphenated := HyphenateWhitespace(kept);
    var slug := CollapseHyphens(hyphenated);
    SlugTrimIsNoOp(title);
    assert GenerateSlug(title) == slug;
    if title[0] == ' ' {
      assert lower[0] == ' ';
      assert kept != [] && kept[0] == ' ';
      assert hyphenated[0] == '-';
      assert slug[0] == '-';
    }
    if title[|title| - 1] == ' ' {
      assert lower[|lower| - 1] == ' ';
      assert kept != [] && kept[|kept| - 1] == ' ';
      assert hyphenated[|hyphenated| - 1] == '-';
      assert slug[|slug| - 1] == '-';
    }
  }

  /** A run of whitespace between two words becomes one hyphen. */
  lemma HyphenateRunBetweenWords(a: string, w: string, b: string)
    requires forall i :: 0 <= i < |a| ==> !IsWhitespace(a[i])
    requires forall i :: 0 <= i < |b| ==> !IsWhitespace(b[i])
    requires w != [] && forall i :: 0 <= i < |w| ==> IsWhitespace(w[i])
    ensures HyphenateWhitespace(a + w + b) == a + "-" + b
  {
    HyphenateWhitespaceSplit(a, w + b);
    HyphenateWhitespaceSplit(w, b);
    HyphenateWhitespaceRun(w);
    HyphenateWhitespaceIdentity(a);
    HyphenateWhitespaceIdentity(b);
    ConcatAssoc(a, w, b);
    ConcatAssoc(a, "-", b);
  }

  /** Two lower-case words separated by blanks are joined by exactly one
      hyphen: `"a b"` and `"a   b"` both give `"a-b"`. */
  lemma SlugOfSpacedWords(a: string, w: string, b: string)
    requires forall i :: 0 <= i < |a| ==> IsLowerAlnum(a[i])
    requires forall i :: 0 <= i < |b| ==> IsLowerAlnum(b[i])
    requires w != [] && forall i :: 0 <= i < |w| ==> w[i] == ' '
    ensures GenerateSlug(a + w + b) == a + "-" + b
  {
    var t := a + w + b;
    assert forall i :: 0 <= i < |t| ==> t[i] == ' ' || IsLowerAlnum(t[i]);
    ToLowerIdentity(t);
    RemoveSpecialCharsIdentity(t);
    assert RemoveSpecialChars(ToLower(t)) == t;
    WordHasNoWhitespace(a);
    WordHasNoWhitespace(b);
    HyphenateRunBetweenWords(a, w, b);
    var h := a + "-" + b;
    OneHyphenBetweenWords(a, b);
    CollapseHyphensIdentity(h);
    assert SlugBeforeTrim(t) == h;
    SlugTrimIsNoOp(t);
  }

  /** A character that is neither a letter, a digit, a blank nor a hyphen (a
      tab, say) is deleted rather than hyphenated: `"a\tb"` gives `"ab"`. */
  lemma SlugOfJoinedWords(a: string, c: char, b: string)
    requires forall i :: 0 <= i < |a| ==> IsLowerAlnum(a[i])
    requires forall i :: 0 <= i < |b| ==> IsLowerAlnum(b[i])
    requires !IsLowerAlnum(c) && !IsUpperAscii(c) && c != ' ' && c != '-'
    ensures GenerateSlug(a + [c] + b) == a + b
  {
    var t := a + [c] + b;
    assert forall i :: 0 <= i < |t| ==> t[i] == c || IsLowerAlnum(t[i]);
    ToLowerIdentity(t);
    assert ' ' !in t && '-' !in t;
    SlugWithoutSeparators(t);
    AlnumOfAppend(a + [c], b);
    AlnumOfAppend(a, [c]);
    assert [c][1..] == [];
    assert AlnumOf([c]) == [];
    AlnumOfIdentity(a);
    AlnumOfIdentity(b);
    assert AlnumOf(a + [c]) == a;
  }

  // ---------------------------------------------------------------------------
  // estimateReadTime over the Editor.js document
  // ---------------------------------------------------------------------------

  /** A list item as the editor stores it: a string, an object exposing some of
      `content`/`text`/`value`, or anything else (null, a number, ...). */
  datatype ListItem =
    | StringItem(s: string)
    | ObjectItem(content: Option<string>, text: Option<string>, value: Option<string>)
    | OtherItem

  /** A block: the three kinds the estimator reads, and every other kind. */
  datatype Block =
    | Header(text: Option<string>)
    | Paragraph(text: Option<string>)
    | List(items: Option<seq<ListItem>>)
    | OtherBlock

  /** The saved editor output; `blocks` may be missing. */
  datatype Content = Content(blocks: Option<seq<Block>>)

  /** JavaScript truthiness of an optional string field. */
  predicate Truthy(o: Option<string>) {
    o.Some? && o.value != ""
  }

  /** `s.split(" ")`: the pieces between single space characters. */
  function SplitOnSpace(s: string): (parts: seq<string>)
    ensures |parts| == CountChar(s, ' ') + 1
    ensures forall i :: 0 <= i < |parts| ==> ' ' !in parts[i]
  {
    if s == [] then [""]
    else
      var rest := SplitOnSpace(s[1..]);
      if s[0] == ' ' then [""] + rest else [[s[0]] + rest[0]] + rest[1..]
  }

  /** `parts.join(" ")`. */
  function JoinWithSpace(parts: seq<string>): string
    requires |parts| >= 1
  {
    if |parts| == 1 then parts[0] else parts[0] + " " + JoinWithSpace(parts[1..])
  }

  /** Splitting on spaces loses nothing: joining the pieces gives the text back. */
  lemma {:induction false} SplitJoinRoundTrip(s: string)
    ensures JoinWithSpace(SplitOnSpace(s)) == s
  {
    if s != [] {
      var rest := SplitOnSpace(s[1..]);
      SplitJoinRoundTrip(s[1..]);
      if s[0] == ' ' {
        assert ([""] + rest)[1..] == rest;
      } else {
        var parts := [[s[0]] + rest[0]] + rest[1..];
        if |rest| > 1 {
          assert parts[1..] == rest[1..];
        }
      }
    }
  }

  /** The word count the estimator takes for a truthy text, `text.split(" ").length`:
      one more than its number of single spaces (see `SplitOnSpace`). */
  function WordsIn(text: string): nat {
    if text == "" then 0 else CountChar(text, ' ') + 1
  }

  /** Two non-empty texts joined by one space count as many words as the two
      apart. */
  lemma WordsInJoin(a: string, b: string)
    requires a != "" && b != ""
    ensures WordsIn(a + " " + b) == WordsIn(a) + WordsIn(b)
  {
    CountCharAppend(a + " ", b, ' ');
    CountCharAppend(a, " ", ' ');
    assert CountChar(" ", ' ') == 1 by {
      assert " "[1..] == [];
    }
  }

  /** `item.content || item.text || item.value || ""`, or the string item itself. */
  function ItemText(item: ListItem): (t: string)
    ensures item.StringItem? ==> t == item.s
    ensures item.OtherItem? ==> t == ""
    ensures item.ObjectItem? && t != "" ==>
      (Truthy(item.content) && t == item.content.value)
      || (!Truthy(item.content) && Truthy(item.text) && t == item.text.value)
      || (!Truthy(item.content) && !Truthy(item.text) && Truthy(item.value) && t == item.value.value)
    ensures item.ObjectItem? && t == "" ==>
      !Truthy(item.content) && !Truthy(item.text) && !Truthy(item.value)
  {
    match item
    case StringItem(s) => s
    case ObjectItem(c, x, v) =>
      if Truthy(c) then c.value else if Truthy(x) then x.value else if Truthy(v) then v.value else ""
    case OtherItem => ""
  }

  /** Words of the items of one list, summed left to right. */
  function ItemsWords(items: seq<ListItem>): nat {
    if items == [] then 0
    else ItemsWords(items[..|items| - 1]) + WordsIn(ItemText(items[|items| - 1]))
  }

  /** Words contributed by one block; every kind other than the three is zero. */
  function BlockWords(b: Block): nat {
    match b
    case Header(t) => if Truthy(t) then WordsIn(t.value) else 0
    case Paragraph(t) => if Truthy(t) then WordsIn(t.value) else 0
    case List(items) => if items.Some? then ItemsWords(items.value) else 0
    case OtherBlock => 0
  }

  /** Words of a block list, summed left to right. */
  function BlocksWords(blocks: seq<Block>): nat {
    if blocks == [] then 0
    else BlocksWords(blocks[..|blocks| - 1]) + BlockWords(blocks[|blocks| - 1])
  }

  /** `Math.max(1, Math.ceil(n / 200))`, in integers. */
  function Minutes(n: nat): (m: nat)
    ensures m >= 1
    ensures n <= 200 * m
    ensures m == 1 || 200 * (m - 1) < n
  {
    var c := (n + 199) / 200;
    if c < 1 then 1 else c
  }

  /** The value `estimateReadTime(content)` returns. */
  function ReadTime(content: Option<Content>): (m: nat)
    ensures m >= 1
    ensures content.None? || content.value.blocks.None? ==> m == 1
  {
    if content.None? || content.value.blocks.None? then 1
    else Minutes(BlocksWords(content.value.blocks.value))
  }

  /** `estimateReadTime(content)`: walks the blocks, and the items of list blocks,
      accumulating the word count, then converts it to minutes. */
  method EstimateReadTime(content: Option<Content>) returns (minutes: nat)
    ensures minutes == ReadTime(content)
  {
    if content.None? || content.value.blocks.None? {
      return 1;
    }
    var blocks := content.value.blocks.value;
    var wordCount: nat := 0;
    var i := 0;
    while i < |blocks|
      invariant 0 <= i <= |blocks|
      invariant wordCount == BlocksWords(blocks[..i])
    {
      var block := blocks[i];
      match block {
        case Paragraph(text) =>
          if Truthy(text) {
            wordCount := wordCount + |SplitOnSpace(text.value)|;
          }
        case Header(text) =>
          if Truthy(text) {
            wordCount := wordCount + |SplitOnSpace(text.value)|;
          }
        case List(items) =>
          if items.Some? {
            var list := items.value;
            ghost var before := wordCount;
            var j := 0;
            while j < |list|
              invariant 0 <= j <= |list|
              invariant wordCount == before + ItemsWords(list[..j])
            {
              var itemText := "";
              match list[j] {
                case StringItem(s) =>
                  itemText := s;
                case ObjectItem(c, x, v) =>
                  itemText := if Truthy(c) then c.value
                              else if Truthy(x) then x.value
                              else if Truthy(v) then v.value
                              else "";
                case OtherItem =>
              }
              if itemText != "" {
                wordCount := wordCount + |SplitOnSpace(itemText)|;
              }
              assert list[..j + 1][..j] == list[..j];
              j := j + 1;
            }
            assert list[..j] == list;
          }
        case OtherBlock =>
      }
      assert blocks[..i + 1][..i] == blocks[..i];
      i := i + 1;
    }
    assert blocks[..i] == blocks;
    minutes := Minutes(wordCount);
  }

  lemma {:induction false} ItemsWordsAppend(a: seq<ListItem>, b: seq<ListItem>)
    ensures ItemsWords(a + b) == ItemsWords(a) + ItemsWords(b)
    decreases |b|
  {
    if b == [] {
      assert a + b == a;
    } else {
      var c := b[..|b| - 1];
      assert (a + b)[..|a + b| - 1] == a + c;
      ItemsWordsAppend(a, c);
    }
  }

  lemma {:induction false} BlocksWordsAppend(a: seq<Block>, b: seq<Block>)
    ensures BlocksWords(a + b) == BlocksWords(a) + BlocksWords(b)
    decreases |b|
  {
    if b == [] {
      assert a + b == a;
    } else {
      var c := b[..|b| - 1];
      assert (a + b)[..|a + b| - 1] == a + c;
      BlocksWordsAppend(a, c);
    }
  }

  lemma BlocksWordsOfThree(a: Block, b: Block, c: Block)
    ensures ReadTime(Some(Content(Some([a, b, c])))) == Minutes(BlockWords(a) + BlockWords(b) + BlockWords(c))
  {
    assert [a][..0] == [];
    assert BlocksWords([a]) == BlockWords(a);
    assert [a, b][..1] == [a];
    assert BlocksWords([a, b]) == BlocksWords([a]) + BlockWords(b);
    assert [a, b, c][..2] == [a, b];
    assert BlocksWords([a, b, c]) == BlocksWords([a, b]) + BlockWords(c);
  }

  lemma MinutesMonotone(n: nat, m: nat)
    requires n <= m
    ensures Minutes(n) <= Minutes(m)
  {
  }

  /** Appending blocks never lowers the estimate. */
  lemma ReadTimeMonotoneInBlocks(blocks: seq<Block>, more: seq<Block>)
    ensures ReadTime(Some(Content(Some(blocks)))) <= ReadTime(Some(Content(Some(blocks + more))))
  {
    BlocksWordsAppend(blocks, more);
    MinutesMonotone(BlocksWords(blocks), BlocksWords(blocks + more));
  }

  /** Appending items to one list block never lowers the estimate. */
  lemma ReadTimeMonotoneInItems(pre: seq<Block>, items: seq<ListItem>, more: seq<ListItem>, post: seq<Block>)
    ensures ReadTime(Some(Content(Some(pre + [List(Some(items))] + post))))
         <= ReadTime(Some(Content(Some(pre + [List(Some(items + more))] + post))))
  {
    ItemsWordsAppend(items, more);
    BlocksWordsAppend(pre + [List(Some(items))], post);
    BlocksWordsAppend(pre, [List(Some(items))]);
    BlocksWordsAppend(pre + [List(Some(items + more))], post);
    BlocksWordsAppend(pre, [List(Some(items + more))]);
    MinutesMonotone(BlocksWords(pre + [List(Some(items))] + post),
                    BlocksWords(pre + [List(Some(items + more))] + post));
  }

  /** One word more than a multiple of 200 costs one more minute. */
  lemma MinutesBoundary()
    ensures Minutes(0) == 1 && Minutes(200) == 1 && Minutes(201) == 2
  {
  }

  /** Only the single space separates words: a double space adds a word, and
      neither a tab nor the entity `&nbsp;` separates. */
  lemma WordCountExamples()
    ensures WordsIn("a  b") == 3
    ensures WordsIn("a&nbsp;b") == 1
    ensures WordsIn("a\tb") == 1
  {
  }

  /** The `content` -> `text` -> `value` fallback of an object item. */
  lemma ItemTextExamples()
    ensures ItemText(ObjectItem(Some("foo"), None, None)) == "foo"
    ensures ItemText(ObjectItem(Some(""), Some("bar"), Some("baz"))) == "bar"
    ensures ItemText(ObjectItem(None, None, None)) == ""
    ensures ItemText(OtherItem) == ""
  {
    assert Truthy(Some("foo"));
    assert !Truthy(Some("")) && Truthy(Some("bar"));
  }

  /** A heading, a paragraph and a two-item list read in one minute. */
  lemma SampleDocumentReadTime()
    ensures ReadTime(Some(Content(Some([
      Header(Some("Intro")),
      Paragraph(Some("a b")),
      List(Some([StringItem("x"), StringItem("y")]))])))) == 1
  {
    SampleParagraphWords();
    SampleListWords();
    BlocksWordsOfThree(Header(Some("Intro")), Paragraph(Some("a b")),
                       List(Some([StringItem("x"), StringItem("y")])));
  }

  lemma SampleParagraphWords()
    ensures BlockWords(Paragraph(Some("a b"))) == 2
  {
    assert "a b"[1..] == " b" && " b"[1..] == "b";
  }

  lemma SampleListWords()
    ensures BlockWords(List(Some([StringItem("x"), StringItem("y")]))) == 2
  {
    var items := [StringItem("x"), StringItem("y")];
    assert items[..1] == [StringItem("x")] && items[..1][..0] == [];
    assert ItemsWords(items[..1]) == 1;
    assert ItemsWords(items) == 2;
  }
}
