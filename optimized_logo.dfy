/**
 * The logo component: the file name a service's logo is fetched under, and
 * the two flags that decide between the image and a letter tile.
 */
module OptimizedLogo {
  import opened JsStrings

  /** The hand-written table from service name to logo file name. */
  const LogoMapping: map<string, string> := map[
    "ChatGPT" := "ChatGPT",
    "Claude" := "Claude",
    "Perplexity" := "Perplexity",
    "Midjourney" := "Midjourney",
    "Leonardo" := "Leonardo",
    "Runway" := "Runway",
    "Copy" := "Copy",
    "Jasper" := "Jasper",
    "GithubCopilot" := "GithubCopilot",
    "ElevenLabs" := "ElevenLabs",
    "Descript" := "Descript",
    "Uizard" := "Uizard",
    "Khroma" := "Khroma",
    "Galileo" := "Galileo",
    "Gemini" := "Gemini",
    "Pi" := "Pi",
    "Stability" := "Stability",
    "Synthesia" := "Synthesia",
    "Heygen" := "Heygen",
    "GrammarlyGO" := "GrammarlyGO",
    "Notion" := "Notion",
    "SudoWrite" := "Sudowrite",
    "Cursor" := "Cursor",
    "ReplitGhostwriter" := "ReplitGhostwriter",
    "Codeium" := "Codeium",
    "Tabnine" := "Tabnine",
    "Voicemod" := "Voicemod",
    "Murf" := "Murf",
    "Riffusion" := "Riffusion",
    "Genei" := "Genei",
    "Humata" := "Humata",
    "Browse" := "Browse",
    "Tome" := "Tome",
    "Kaiber" := "Kaiber",
    "Pikalabs" := "Pikalabs"
  ]

  /** `s.replace(/[^a-z0-9]/g, "-")`: every character outside `[a-z0-9]`
      becomes one hyphen, in place. */
  function HyphenateNonAlnum(s: string): (r: string)
    ensures |r| == |s|
    ensures forall i :: 0 <= i < |s| && IsLowerAlnum(s[i]) ==> r[i] == s[i]
    ensures forall i :: 0 <= i < |s| && !IsLowerAlnum(s[i]) ==> r[i] == '-'
  {
    if s == [] then []
    else [if IsLowerAlnum(s[0]) then s[0] else '-'] + HyphenateNonAlnum(s[1..])
  }

  /** A string drawn from `[a-z0-9-]` has no character for the rewrite to change. */
  lemma HyphenateNonAlnumIdentity(s: string)
    requires forall i :: 0 <= i < |s| ==> IsLowerAlnumOrHyphen(s[i])
    ensures HyphenateNonAlnum(s) == s
  {
  }

  /** Hyphenating keeps exactly the letters and digits, in order. */
  lemma {:induction false} HyphenateNonAlnumKeepsAlnum(s: string)
    ensures AlnumOf(HyphenateNonAlnum(s)) == AlnumOf(s)
  {
    if s != [] {
      HyphenateNonAlnumKeepsAlnum(s[1..]);
      assert HyphenateNonAlnum(s)[1..] == HyphenateNonAlnum(s[1..]);
    }
  }

  /** Hyphenating works character by character, so it splits over concatenation. */
  lemma HyphenateNonAlnumAppend(a: string, b: string)
    ensures HyphenateNonAlnum(a + b) == HyphenateNonAlnum(a) + HyphenateNonAlnum(b)
  {
    assert forall i :: 0 <= i < |a + b| ==>
      HyphenateNonAlnum(a + b)[i] == (HyphenateNonAlnum(a) + HyphenateNonAlnum(b))[i];
  }

  /** `s.replace(/^-|-$/g, "")`: one hyphen dropped at the start and one at
      the end, when there is one. */
  function StripEdgeHyphens(s: string): (r: string)
    ensures s == "-" ==> r == ""
    ensures |s| >= 2 && s[0] == '-' && s[|s| - 1] == '-' ==> r == s[1..|s| - 1]
    ensures s != [] && s[0] == '-' && s[|s| - 1] != '-' ==> r == s[1..]
    ensures s != [] && s[0] != '-' && s[|s| - 1] == '-' ==> r == s[..|s| - 1]
    ensures forall i :: 0 <= i < |r| ==> r[i] in s
    ensures NoDoubleHyphen(s) ==> NoDoubleHyphen(r)
    ensures NoDoubleHyphen(s) && r != [] ==> r[0] != '-' && r[|r| - 1] != '-'
    ensures (s == [] || (s[0] != '-' && s[|s| - 1] != '-')) ==> r == s
  {
    var t := if s != [] && s[0] == '-' then s[1..] else s;
    if t != [] && t[|t| - 1] == '-' then t[..|t| - 1] else t
  }

  /** Dropping edge hyphens keeps every letter and digit. */
  lemma StripEdgeHyphensKeepsAlnum(s: string)
    ensures AlnumOf(StripEdgeHyphens(s)) == AlnumOf(s)
  {
    var t := if s != [] && s[0] == '-' then s[1..] else s;
    assert AlnumOf(t) == AlnumOf(s) by {
      if s != [] && s[0] == '-' {
        assert s == ['-'] + t;
        AlnumOfAppend(['-'], t);
      }
    }
    var r := if t != [] && t[|t| - 1] == '-' then t[..|t| - 1] else t;
    assert StripEdgeHyphens(s) == r;
    assert AlnumOf(r) == AlnumOf(t) by {
      if t != [] && t[|t| - 1] == '-' {
        assert t == r + ['-'];
        AlnumOfAppend(r, ['-']);
      }
    }
  }

  /** The file name derived from a name the table does not know. */
  function FallbackFileName(name: string): (r: string)
    ensures forall i :: 0 <= i < |r| ==> IsLowerAlnumOrHyphen(r[i])
    ensures NoDoubleHyphen(r)
    ensures r != [] ==> r[0] != '-' && r[|r| - 1] != '-'
  {
    var hyphenated := HyphenateNonAlnum(ToLower(name));
    assert forall c :: c in hyphenated ==> IsLowerAlnumOrHyphen(c);
    var collapsed := CollapseHyphens(hyphenated);
    assert forall c :: c in collapsed ==> IsLowerAlnumOrHyphen(c);
    StripEdgeHyphens(collapsed)
  }

  /** `logoMapping[serviceName] || fallback`: the table wins whenever it has a
      non-empty entry. */
  function FileName(name: string): string {
    if name in LogoMapping && LogoMapping[name] != "" then LogoMapping[name]
    else FallbackFileName(name)
  }

  /** `getLogoPath`. */
  function GetLogoPath(name: string): string {
    "/api/logos/" + FileName(name) + ".png"
  }

  /** Every entry of the table is its key, except the one for `"SudoWrite"`. */
  lemma MappingIsIdentityExceptSudoWrite()
    ensures forall k :: k in LogoMapping && k != "SudoWrite" ==> LogoMapping[k] == k
    ensures "SudoWrite" in LogoMapping && LogoMapping["SudoWrite"] == "Sudowrite"
  {
  }

  /** A known name is fetched under its table entry, never the fallback. */
  lemma MappedLogoPath(name: string)
    requires name in LogoMapping
    ensures GetLogoPath(name) == "/api/logos/" + LogoMapping[name] + ".png"
  {
    MappingIsIdentityExceptSudoWrite();
  }

  /** An unknown name is fetched under the fallback file name. */
  lemma UnmappedLogoPath(name: string)
    requires name !in LogoMapping
    ensures GetLogoPath(name) == "/api/logos/" + FallbackFileName(name) + ".png"
  {
  }

  /** The table keeps capital letters the fallback would have lowered. */
  lemma GithubCopilotKeepsCase()
    ensures GetLogoPath("GithubCopilot") == "/api/logos/GithubCopilot.png"
  {
    MappedLogoPath("GithubCopilot");
  }

  /** The fallback keeps the lowercased letters and digits of the name, in order. */
  lemma FallbackKeepsAlnum(name: string)
    ensures AlnumOf(FallbackFileName(name)) == AlnumOf(ToLower(name))
  {
    var hyphenated := HyphenateNonAlnum(ToLower(name));
    HyphenateNonAlnumKeepsAlnum(ToLower(name));
    CollapseHyphensKeepsAlnum(hyphenated);
    StripEdgeHyphensKeepsAlnum(CollapseHyphens(hyphenated));
  }

  /** Two words joined by a run of characters that are not letters or digits,
      even after lowercasing, are joined by exactly one hyphen:
      `"Foo Bar"`, `"foo--bar"` and `"foo & bar"` all give `"foo-bar"`. */
  lemma FallbackOfSeparatedWords(a: string, w: string, b: string)
    requires a != [] && forall i :: 0 <= i < |a| ==> IsLowerAlnum(a[i])
    requires b != [] && forall i :: 0 <= i < |b| ==> IsLowerAlnum(b[i])
    requires w != [] && forall i :: 0 <= i < |w| ==> !IsLowerAlnum(ToLowerChar(w[i]))
    ensures FallbackFileName(a + w + b) == a + "-" + b
  {
    var hy := HyphenateNonAlnum(ToLower(w));
    HyphenateSeparatedWords(a, w, b);
    CollapseRunBetweenWords(a, hy, b);
  }

  /** Lowercasing and hyphenating two words and a separator run: the words stay,
      the run turns into as many hyphens. */
  lemma HyphenateSeparatedWords(a: string, w: string, b: string)
    requires forall i :: 0 <= i < |a| ==> IsLowerAlnum(a[i])
    requires forall i :: 0 <= i < |b| ==> IsLowerAlnum(b[i])
    requires forall i :: 0 <= i < |w| ==> !IsLowerAlnum(ToLowerChar(w[i]))
    ensures var hy := HyphenateNonAlnum(ToLower(w));
      HyphenateNonAlnum(ToLower(a + w + b)) == a + hy + b && forall i :: 0 <= i < |hy| ==> hy[i] == '-'
  {
    var lw := ToLower(w);
    LowerOfSeparatedWords(a, w, b);
    var hy := HyphenateNonAlnum(lw);
    HyphenateNonAlnumIdentity(a);
    HyphenateNonAlnumIdentity(b);
    HyphenateNonAlnumAppend(a, lw + b);
    HyphenateNonAlnumAppend(lw, b);
    ConcatAssoc(a, lw, b);
    ConcatAssoc(a, hy, b);
  }

  /** Lowercasing leaves the words and lowers the separator run. */
  lemma LowerOfSeparatedWords(a: string, w: string, b: string)
    requires forall i :: 0 <= i < |a| ==> IsLowerAlnum(a[i])
    requires forall i :: 0 <= i < |b| ==> IsLowerAlnum(b[i])
    ensures ToLower(a + w + b) == a + ToLower(w) + b
  {
    ToLowerIdentity(a);
    ToLowerIdentity(b);
    ToLowerAppend(a, w + b);
    ToLowerAppend(w, b);
    ConcatAssoc(a, w, b);
    ConcatAssoc(a, ToLower(w), b);
  }

  /** A fallback name without letters or digits is empty, and the converse. */
  lemma FallbackEmptyIffNoAlnum(name: string)
    ensures FallbackFileName(name) == "" <==> AlnumOf(ToLower(name)) == ""
  {
    FallbackKeepsAlnum(name);
    var r := FallbackFileName(name);
    if r != "" && AlnumOf(r) == "" {
      NoAlnumIsHyphens(r);
    }
  }

  /** A `[a-z0-9-]` string with no letters or digits consists of hyphens. */
  lemma {:induction false} NoAlnumIsHyphens(s: string)
    requires forall i :: 0 <= i < |s| ==> IsLowerAlnumOrHyphen(s[i])
    requires AlnumOf(s) == ""
    ensures forall i :: 0 <= i < |s| ==> s[i] == '-'
  {
    if s != [] {
      NoAlnumIsHyphens(s[1..]);
      assert forall i :: 1 <= i < |s| ==> s[i] == s[1..][i - 1];
    }
  }

  /** A name made of punctuation alone is fetched under `/api/logos/.png`. */
  lemma EmptyFallbackPath(name: string)
    requires name !in LogoMapping
    requires AlnumOf(ToLower(name)) == ""
    ensures GetLogoPath(name) == "/api/logos/.png"
  {
    FallbackEmptyIffNoAlnum(name);
  }

  /** A name already in fallback form, `[a-z0-9-]` with no double hyphen and
      no hyphen at either end, is its own fallback. */
  lemma FallbackFixpoint(f: string)
    requires forall i :: 0 <= i < |f| ==> IsLowerAlnumOrHyphen(f[i])
    requires NoDoubleHyphen(f)
    requires f != [] ==> f[0] != '-' && f[|f| - 1] != '-'
    ensures FallbackFileName(f) == f
  {
    ToLowerIdentity(f);
    assert ToLower(f) == f;
    HyphenateNonAlnumIdentity(f);
    assert HyphenateNonAlnum(ToLower(f)) == f;
    CollapseHyphensIdentity(f);
    assert CollapseHyphens(HyphenateNonAlnum(ToLower(f))) == f;
  }

  /** Applying the fallback to its own output returns that output. */
  lemma FallbackIdempotent(name: string)
    ensures FallbackFileName(FallbackFileName(name)) == FallbackFileName(name)
  {
    FallbackFixpoint(FallbackFileName(name));
  }

  /** What the component renders. */
  datatype LogoView =
    | LetterTile(letter: string)
    | ImageView(src: string, placeholder: bool)

  /** `s.charAt(0).toUpperCase()`: the empty string for an empty name. */
  function Initial(s: string): (r: string)
    ensures s == [] ==> r == ""
    ensures s != [] ==> r == [ToUpperChar(s[0])]
  {
    if s == [] then "" else [ToUpperChar(s[0])]
  }

  /** The component's state: the name it shows and its two flags. */
  class LogoImage {
    const serviceName: string
    var isLoading: bool
    var hasError: bool

    /** Mounting: still loading, no error yet. */
    constructor(serviceName: string)
      ensures this.serviceName == serviceName
      ensures isLoading && !hasError
    {
      this.serviceName := serviceName;
      isLoading := true;
      hasError := false;
    }

    /** `handleLoad`: only the loading flag is cleared. */
    method HandleLoad()
      modifies this
      ensures !isLoading && hasError == old(hasError)
      ensures hasError || View() == ImageView(GetLogoPath(serviceName), false)
    {
      isLoading := false;
    }

    /** `handleError`: loading ends and the letter tile takes over. */
    method HandleError()
      modifies this
      ensures !isLoading && hasError
      ensures View() == LetterTile(Initial(serviceName))
    {
      isLoading := false;
      hasError := true;
    }

    /** The tile after an error; before it, the image with a placeholder while
        it loads. */
    function View(): (v: LogoView)
      reads this
      ensures v.LetterTile? <==> hasError
      ensures v.LetterTile? ==> v.letter == Initial(serviceName)
      ensures v.ImageView? ==> v.src == GetLogoPath(serviceName) && (v.placeholder <==> isLoading)
    {
      if hasError then LetterTile(Initial(serviceName))
      else ImageView(GetLogoPath(serviceName), isLoading)
    }
  }

  /** Load and error events in any order: once an error is seen the tile stays. */
  method ErrorIsSticky(logo: LogoImage, loadFirst: bool)
    modifies logo
    ensures logo.View() == LetterTile(Initial(logo.serviceName))
  {
    if loadFirst {
      logo.HandleLoad();
      logo.HandleError();
    } else {
      logo.HandleError();
      logo.HandleLoad();
    }
  }
}
