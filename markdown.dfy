/**
 * `parseMarkdown` (src/components/Chatbot.tsx, lines 224-240): six global
 * regular-expression replacements applied one after the other. Each pattern's
 * lazy `(.+?)` group is modelled exactly: at each position the shortest
 * non-empty run of characters other than line terminators that is followed by
 * the closing marker; when there is none, the search moves one character on.
 * No escaping is done, as in the source.
 */
module Markdown {
  import opened Wrappers

  /** The characters the regular-expression `.` does not match. */
  function IsLineTerminator(c: char): (b: bool)
    ensures c == '\n' || c == '\r' ==> b
    ensures c == '\t' || ' ' <= c <= '~' ==> !b
  {
    c == '\n' || c == '\r' || c as int == 0x2028 || c as int == 0x2029
  }

  /** A run of characters that `.` matches throughout. */
  predicate Clean(s: string) {
    forall i :: 0 <= i < |s| ==> !IsLineTerminator(s[i])
  }

  /** `body[..j]` can be the lazy group and `body[j..]` starts with the closing marker. */
  predicate ClosesAt(body: string, marker: string, j: nat) {
    1 <= j && j + |marker| <= |body| && body[j..j + |marker|] == marker && Clean(body[..j])
  }

  /**
   * The lazy group's end: the least `j` from `from` on at which the marker
   * closes a clean group; `None` when there is no such `j`.
   */
  function FindClose(body: string, marker: string, from: nat): (r: Option<nat>)
    requires 1 <= from <= |body| + 1 && Clean(body[..from - 1])
    ensures r.Some? ==> from <= r.value && ClosesAt(body, marker, r.value)
    ensures forall j :: from <= j && (r.None? || j < r.value) ==> !ClosesAt(body, marker, j)
    decreases |body| + 1 - from
  {
    if from + |marker| > |body| then
      None
    else if IsLineTerminator(body[from - 1]) then
      assert forall j :: from <= j <= |body| ==> body[..j][from - 1] == body[from - 1];
      None
    else if body[from..from + |marker|] == marker then
      assert body[..from] == body[..from - 1] + [body[from - 1]];
      Some(from)
    else
      assert body[..from] == body[..from - 1] + [body[from - 1]];
      FindClose(body, marker, from + 1)
  }

  function OpenTag(tag: string): string {
    "<" + tag + ">"
  }

  function CloseTag(tag: string): string {
    "</" + tag + ">"
  }

  /**
   * `s.replace(/M(.+?)M/g, '<tag>$1</tag>')` for the marker `M` (`**`, `__`,
   * `*` or `_`).
   */
  function ReplaceSpans(s: string, marker: string, tag: string): string
    requires |marker| >= 1
    decreases |s|
  {
    if s == [] then
      []
    else if |marker| <= |s| && s[..|marker|] == marker then
      (match FindClose(s[|marker|..], marker, 1)
       case Some(j) =>
         OpenTag(tag) + s[|marker|..|marker| + j] + CloseTag(tag)
         + ReplaceSpans(s[|marker| + j + |marker|..], marker, tag)
       case None =>
         [s[0]] + ReplaceSpans(s[1..], marker, tag))
    else
      [s[0]] + ReplaceSpans(s[1..], marker, tag)
  }

  /**
   * The end of the URL group of a link whose `](` sits at `k - 3`: the least
   * position from `k` on holding `)` with a clean URL before it; `None` when
   * there is no such position.
   */
  function UrlEnd(s: string, k: nat): (r: Option<nat>)
    requires 1 <= k
    ensures r.Some? ==> k <= r.value < |s| && s[r.value] == ')' && Clean(s[k - 1..r.value])
    ensures forall m :: k <= m < |s| && (r.None? || m < r.value) && s[m] == ')' ==> !Clean(s[k - 1..m])
    decreases |s| - k
  {
    if k >= |s| then None
    else if IsLineTerminator(s[k - 1]) then
      CleanShift(s, k);
      None
    else if s[k] == ')' then
      assert s[k - 1..k] == [s[k - 1]];
      Some(k)
    else
      var r := UrlEnd(s, k + 1);
      CleanShift(s, k);
      r
  }

  /** A run starting one character earlier is clean exactly when that character is not a line terminator. */
  lemma {:induction false} CleanShift(s: string, i: nat)
    requires 1 <= i <= |s|
    ensures forall j :: i <= j <= |s| ==> (Clean(s[i - 1..j]) <==> !IsLineTerminator(s[i - 1]) && Clean(s[i..j]))
  {
    forall j | i <= j <= |s|
      ensures Clean(s[i - 1..j]) <==> !IsLineTerminator(s[i - 1]) && Clean(s[i..j])
    {
      assert s[i - 1..j] == [s[i - 1]] + s[i..j];
    }
  }

  /** A `](` at `j` ends a clean label `s[from - 1..j]` and is followed by a URL group that closes. */
  predicate LabelEndsAt(s: string, from: nat, j: nat) {
    1 <= from && from <= j && j + 1 < |s| && s[j] == ']' && s[j + 1] == '(' && Clean(s[from - 1..j])
    && UrlEnd(s, j + 3).Some?
  }

  /** Past a character that is not a line terminator, a label may as well start one position later. */
  lemma {:induction false} LabelShift(s: string, from: nat)
    requires 1 <= from < |s| && !IsLineTerminator(s[from - 1])
    ensures forall j :: from < j ==> (LabelEndsAt(s, from, j) <==> LabelEndsAt(s, from + 1, j))
  {
    CleanShift(s, from);
  }

  /**
   * The groups of a link starting at `s[0] == '['`: the least label end `j`
   * (from `from` on) with `](` at `j` and a URL end after it; the pair is the
   * label end and the URL end. `LinkAtIsLeast` states that it is the least.
   */
  function LinkAt(s: string, from: nat): (r: Option<(nat, nat)>)
    requires 2 <= from
    ensures r.Some? ==> from <= r.value.0 && r.value.0 + 3 <= r.value.1 < |s|
    decreases |s| - from
  {
    if from + 1 >= |s| then None
    else if IsLineTerminator(s[from - 1]) then None
    else if s[from] == ']' && s[from + 1] == '(' then
      (match UrlEnd(s, from + 3)
       case Some(k) => Some((from, k))
       case None => LinkAt(s, from + 1))
    else LinkAt(s, from + 1)
  }

  /**
   * `r` is the least label end from `from` on that has a clean label and a
   * closing URL, paired with that URL's end; `None` when there is none.
   */
  ghost predicate LeastLabel(s: string, from: nat, r: Option<(nat, nat)>) {
    && (r.Some? ==> LabelEndsAt(s, from, r.value.0) && UrlEnd(s, r.value.0 + 3) == Some(r.value.1))
    && (forall j :: from <= j && (r.None? || j < r.value.0) ==> !LabelEndsAt(s, from, j))
  }

  /** The least label end from `from + 1` on is also the least from `from` when `from` itself is not one. */
  lemma {:induction false} LeastLabelStep(s: string, from: nat, r: Option<(nat, nat)>)
    requires 1 <= from && from + 1 < |s| && !IsLineTerminator(s[from - 1])
    requires !LabelEndsAt(s, from, from)
    requires LeastLabel(s, from + 1, r)
    ensures LeastLabel(s, from, r)
  {
    LabelShift(s, from);
  }

  /**
   * `LinkAt` finds a label end with a clean label and a closing URL, and no
   * earlier label end has both: the backtracking of the lazy label group.
   */
  lemma {:induction false} LinkAtIsLeast(s: string, from: nat)
    requires 2 <= from
    ensures LeastLabel(s, from, LinkAt(s, from))
    decreases |s| - from
  {
    if from + 1 >= |s| {
    } else if IsLineTerminator(s[from - 1]) {
      CleanShift(s, from);
    } else {
      assert s[from - 1..from] == [s[from - 1]];
      if !(s[from] == ']' && s[from + 1] == '(' && UrlEnd(s, from + 3).Some?) {
        assert LinkAt(s, from) == LinkAt(s, from + 1);
        LinkAtIsLeast(s, from + 1);
        LeastLabelStep(s, from, LinkAt(s, from + 1));
      }
    }
  }

  /** The attributes every link gets after its `href`. */
  const LINK_ATTRIBUTES: string := "\" target=\"_blank\"" + " rel=\"noopener noreferrer\"" + " class=\"underline\">"

  /** The anchor a link becomes, opening in a new tab: the URL is its `href`, the caption its text. */
  function Anchor(caption: string, url: string): (a: string)
    ensures |a| == 13 + |url| + |LINK_ATTRIBUTES| + |caption|
    ensures a[..9] == "<a href=\"" && a[9..9 + |url|] == url
    ensures a[9 + |url|..|a| - 4 - |caption|] == LINK_ATTRIBUTES
    ensures a[|a| - 4 - |caption|..|a| - 4] == caption && a[|a| - 4..] == "</a>"
  {
    var a := "<a href=\"" + url + LINK_ATTRIBUTES + caption + "</a>";
    assert a[..9] == "<a href=\"" && a[9..9 + |url|] == url;
    assert a[9 + |url|..|a| - 4 - |caption|] == LINK_ATTRIBUTES;
    assert a[|a| - 4 - |caption|..|a| - 4] == caption && a[|a| - 4..] == "</a>";
    a
  }

  /**
   * `[label](url)` at the head of `s`: `[` at 0, a clean non-empty label
   * `s[1..j]`, `](` at `j`, a clean non-empty URL `s[j + 2..k]` and `)` at `k`.
   */
  predicate LinkEndsAt(s: string, j: nat, k: nat) {
    2 <= j && j + 3 <= k < |s| && s[0] == '[' && s[j] == ']' && s[j + 1] == '(' && s[k] == ')'
    && Clean(s[1..j]) && Clean(s[j + 2..k])
  }

  /**
   * The match `/\[(.+?)\]\((.+?)\)/` takes at the head of `s`: of all the ways
   * a link can start there, the one with the shortest label and, for that
   * label, the shortest URL; `None` when no link starts there.
   */
  function LinkMatch(s: string): (r: Option<(nat, nat)>)
    ensures r.Some? ==> LinkEndsAt(s, r.value.0, r.value.1)
    ensures forall j, k :: LinkEndsAt(s, j, k) ==> r.Some? && (r.value.0 < j || (r.value.0 == j && r.value.1 <= k))
  {
    if s != [] && s[0] == '[' then
      var r := LinkAt(s, 2);
      LinkAtIsLeast(s, 2);
      forall j, k | LinkEndsAt(s, j, k)
        ensures r.Some? && (r.value.0 < j || (r.value.0 == j && r.value.1 <= k))
      {
        assert LabelEndsAt(s, 2, j);
      }
      r
    else
      None
  }

  /**
   * A global link replacement whose replacement is `render(label, url)`:
   * `s.replace(/\[(.+?)\]\((.+?)\)/g, ...)`.
   */
  function ReplaceLinksWith(s: string, render: (string, string) -> string): string
    decreases |s|
  {
    if s == [] then
      []
    else if s[0] != '[' then
      [s[0]] + ReplaceLinksWith(s[1..], render)
    else
      match LinkMatch(s)
      case Some((j, k)) => render(s[1..j], s[j + 2..k]) + ReplaceLinksWith(s[k + 1..], render)
      case None => [s[0]] + ReplaceLinksWith(s[1..], render)
  }

  /** The link pass of `parseMarkdown`: every link becomes its anchor. */
  function ReplaceLinks(s: string): (r: string)
    ensures '[' !in s ==> r == s
  {
    assert '[' !in s ==> ReplaceLinksWith(s + [], Anchor) == s + ReplaceLinksWith([], Anchor) by {
      if '[' !in s {
        LinksSkipPlain(s, [], Anchor);
      }
    }
    assert s + [] == s;
    ReplaceLinksWith(s, Anchor)
  }

  /** `s.replace(/\n/g, '<br />')`: no newline is left, and text without one is untouched. */
  function ReplaceNewlines(s: string): (r: string)
    ensures '\n' !in r
    ensures '\n' !in s ==> r == s
    decreases |s|
  {
    if s == [] then
      []
    else
      assert s == [s[0]] + s[1..];
      (if s[0] == '\n' then "<br />" else [s[0]]) + ReplaceNewlines(s[1..])
  }

  /** `parseMarkdown`: bold, then italic, then links, then line breaks. */
  function ParseMarkdown(text: string): (html: string)
    ensures '\n' !in html
  {
    var bold := ReplaceSpans(ReplaceSpans(text, "**", "strong"), "__", "strong");
    var italic := ReplaceSpans(ReplaceSpans(bold, "*", "em"), "_", "em");
    ReplaceNewlines(ReplaceLinks(italic))
  }

  /** A character other than the marker's first is copied by a span pass. */
  lemma {:induction false} SpansSkipChar(c: char, rest: string, marker: string, tag: string)
    requires |marker| >= 1 && c != marker[0]
    ensures ReplaceSpans([c] + rest, marker, tag) == [c] + ReplaceSpans(rest, marker, tag)
  {
    var s := [c] + rest;
    assert |marker| <= |s| ==> s[..|marker|][0] == c;
    assert s[1..] == rest;
  }

  /** Text without the marker's character passes through a span pass unchanged. */
  lemma {:induction false} SpansSkipPlain(plain: string, rest: string, marker: string, tag: string)
    requires |marker| >= 1 && marker[0] !in plain
    ensures ReplaceSpans(plain + rest, marker, tag) == plain + ReplaceSpans(rest, marker, tag)
    decreases |plain|
  {
    if plain == [] {
      assert plain + rest == rest;
    } else {
      var tail := plain[1..];
      assert plain == [plain[0]] + tail;
      assert plain + rest == [plain[0]] + (tail + rest);
      SpansSkipChar(plain[0], tail + rest, marker, tag);
      assert marker[0] !in tail;
      SpansSkipPlain(tail, rest, marker, tag);
    }
  }

  /** A character other than `[` is copied by a link pass. */
  lemma {:induction false} LinksSkipChar(c: char, rest: string, render: (string, string) -> string)
    requires c != '['
    ensures ReplaceLinksWith([c] + rest, render) == [c] + ReplaceLinksWith(rest, render)
  {
    assert ([c] + rest)[1..] == rest;
  }

  /** Text without `[` passes through a link pass unchanged. */
  lemma {:induction false} LinksSkipPlain(plain: string, rest: string, render: (string, string) -> string)
    requires '[' !in plain
    ensures ReplaceLinksWith(plain + rest, render) == plain + ReplaceLinksWith(rest, render)
    decreases |plain|
  {
    if plain == [] {
      assert plain + rest == rest;
    } else {
      var tail := plain[1..];
      assert plain == [plain[0]] + tail;
      assert plain + rest == [plain[0]] + (tail + rest);
      LinksSkipChar(plain[0], tail + rest, render);
      assert '[' !in tail;
      LinksSkipPlain(tail, rest, render);
    }
  }

  /** One step of a link pass at a link whose label ends at `j` and URL at `k`. */
  lemma {:induction false} LinkStep(s: string, render: (string, string) -> string, j: nat, k: nat)
    requires LinkMatch(s) == Some((j, k))
    ensures k < |s| && j + 2 <= k
    ensures ReplaceLinksWith(s, render) == render(s[1..j], s[j + 2..k]) + ReplaceLinksWith(s[k + 1..], render)
  {
  }

  /** A closing marker right after a clean, marker-free group is the one the lazy group takes. */
  lemma {:induction false} CloseAfterGroup(group: string, marker: string, rest: string, from: nat)
    requires |marker| >= 1 && 1 <= from <= |group|
    requires marker[0] !in group && Clean(group)
    ensures Clean((group + marker + rest)[..from - 1])
    ensures FindClose(group + marker + rest, marker, from) == Some(|group|)
    decreases |group| - from
  {
    var body := group + marker + rest;
    assert body[..from - 1] == group[..from - 1];
    assert body[from - 1] == group[from - 1];
    if from < |group| {
      assert body[from..from + |marker|][0] == group[from];
      CloseAfterGroup(group, marker, rest, from + 1);
    } else {
      assert body[from..from + |marker|] == marker;
    }
  }

  /**
   * A marker, a non-empty clean group free of the marker's character, and the
   * marker again become the group wrapped in the tag.
   */
  lemma {:induction false} SpanAt(group: string, rest: string, marker: string, tag: string)
    requires |marker| >= 1 && group != [] && marker[0] !in group && Clean(group)
    ensures ReplaceSpans(marker + group + marker + rest, marker, tag)
         == OpenTag(tag) + group + CloseTag(tag) + ReplaceSpans(rest, marker, tag)
  {
    var body := group + marker + rest;
    var s := marker + group + marker + rest;
    assert s == marker + body;
    assert body[..0] == [];
    CloseAfterGroup(group, marker, rest, 1);
    assert body[..|group|] == group;
    assert body[|group| + |marker|..] == rest;
    SpanStep(s, marker, tag, body, |group|);
  }

  /** One step of a span pass at a marker whose lazy group ends at `j`. */
  lemma {:induction false} SpanStep(s: string, marker: string, tag: string, body: string, j: nat)
    requires |marker| >= 1 && s == marker + body
    requires Clean(body[..0]) && FindClose(body, marker, 1) == Some(j)
    ensures j + |marker| <= |body|
    ensures ReplaceSpans(s, marker, tag)
         == OpenTag(tag) + body[..j] + CloseTag(tag) + ReplaceSpans(body[j + |marker|..], marker, tag)
  {
    assert s[..|marker|] == marker;
    assert s[|marker|..] == body;
    assert s[|marker|..|marker| + j] == body[..j];
    assert s[|marker| + j + |marker|..] == body[j + |marker|..];
  }

  /** Every pass leaves text with none of `*`, `_`, `[` and newline as it is. */
  lemma {:induction false} PassesKeepPlain(text: string)
    requires '*' !in text && '_' !in text && '[' !in text && '\n' !in text
    ensures ReplaceSpans(text, "**", "strong") == text && ReplaceSpans(text, "__", "strong") == text
    ensures ReplaceSpans(text, "*", "em") == text && ReplaceSpans(text, "_", "em") == text
    ensures ReplaceLinks(text) == text && ReplaceNewlines(text) == text
  {
    assert text + [] == text;
    SpansSkipPlain(text, [], "**", "strong");
    SpansSkipPlain(text, [], "__", "strong");
    SpansSkipPlain(text, [], "*", "em");
    SpansSkipPlain(text, [], "_", "em");
    LinksSkipPlain(text, [], Anchor);
  }

  /** Text with none of `*`, `_`, `[` and newline is returned unchanged. */
  lemma {:induction false} PlainTextUnchanged(text: string)
    requires '*' !in text && '_' !in text && '[' !in text && '\n' !in text
    ensures ParseMarkdown(text) == text
  {
    PassesKeepPlain(text);
  }

  /** No markup character of the later passes occurs in `x`. */
  predicate MarkerFree(x: string) {
    Clean(x) && '*' !in x && '_' !in x && '[' !in x
  }

  /** Text free of every marker, wrapped by one pass, stays free of the later passes' markers. */
  lemma {:induction false} WrappedIsPlain(x: string, tag: string)
    requires MarkerFree(x) && (tag == "strong" || tag == "em")
    ensures var w := OpenTag(tag) + x + CloseTag(tag);
      '*' !in w && '_' !in w && '[' !in w && '\n' !in w
  {
    assert IsLineTerminator('\n');
  }

  /** When the first pass already yields plain text, the remaining passes keep it. */
  lemma {:induction false} PlainAfterBold(text: string, w: string)
    requires ReplaceSpans(text, "**", "strong") == w
    requires '*' !in w && '_' !in w && '[' !in w && '\n' !in w
    ensures ParseMarkdown(text) == w
  {
    PassesKeepPlain(w);
  }

  /** When the bold passes keep the text and the first italic pass yields plain text, the rest keep it. */
  lemma {:induction false} PlainAfterItalic(text: string, w: string)
    requires ReplaceSpans(text, "**", "strong") == text && ReplaceSpans(text, "__", "strong") == text
    requires ReplaceSpans(text, "*", "em") == w
    requires '*' !in w && '_' !in w && '[' !in w && '\n' !in w
    ensures ParseMarkdown(text) == w
  {
    PassesKeepPlain(w);
  }

  /** A span pass over exactly one span yields the wrapped group. */
  lemma {:induction false} SingleSpan(x: string, marker: string, tag: string)
    requires |marker| >= 1 && x != [] && marker[0] !in x && Clean(x)
    ensures ReplaceSpans(marker + x + marker, marker, tag) == OpenTag(tag) + x + CloseTag(tag)
  {
    assert marker + x + marker == marker + x + marker + [];
    SpanAt(x, [], marker, tag);
    assert ReplaceSpans([], marker, tag) == [];
  }

  /** The tags the span passes emit. */
  lemma TagsSpelledOut()
    ensures OpenTag("strong") == "<strong>" && CloseTag("strong") == "</strong>"
    ensures OpenTag("em") == "<em>" && CloseTag("em") == "</em>"
  {
  }

  /** `**x**` becomes `<strong>x</strong>` when `x` is non-empty and free of markers. */
  lemma {:induction false} BoldSpan(x: string)
    requires x != [] && MarkerFree(x)
    ensures ParseMarkdown("**" + x + "**") == "<strong>" + x + "</strong>"
  {
    var s := "**" + x + "**";
    var w := OpenTag("strong") + x + CloseTag("strong");
    SingleSpan(x, "**", "strong");
    WrappedIsPlain(x, "strong");
    PlainAfterBold(s, w);
    TagsSpelledOut();
  }

  /** `*x*` becomes `<em>x</em>` when `x` is non-empty and free of markers. */
  lemma {:induction false} ItalicSpan(x: string)
    requires x != [] && MarkerFree(x)
    ensures ParseMarkdown("*" + x + "*") == "<em>" + x + "</em>"
  {
    var s := "*" + x + "*";
    LoneAsterisks(x);
    SingleSpan(x, "*", "em");
    WrappedIsPlain(x, "em");
    PlainAfterItalic(s, OpenTag("em") + x + CloseTag("em"));
    TagsSpelledOut();
  }

  /** The bold passes leave `*x*` alone: a lone asterisk is not a `**` marker. */
  lemma {:induction false} LoneAsterisks(x: string)
    requires x != [] && MarkerFree(x)
    ensures ReplaceSpans("*" + x + "*", "**", "strong") == "*" + x + "*"
    ensures ReplaceSpans("*" + x + "*", "__", "strong") == "*" + x + "*"
  {
    var s := "*" + x + "*";
    assert s[..2] == ['*', x[0]];
    assert s[1..] == x + "*";
    SpansSkipPlain(x, "*", "**", "strong");
    assert s + [] == s;
    SpansSkipPlain(s, [], "__", "strong");
  }


  /**
   * A link at the head of `s` is the one the regex takes when no `]` comes
   * before its label end and no `)` inside its URL.
   */
  lemma {:induction false} LinkMatchAt(s: string, j: nat, k: nat)
    requires LinkEndsAt(s, j, k)
    requires forall i :: 1 <= i < j ==> s[i] != ']'
    requires forall i :: j + 2 <= i < k ==> s[i] != ')'
    ensures LinkMatch(s) == Some((j, k))
  {
  }

  /** The link regex takes the whole of `[t](u)` when `t` has no `]` and `u` no `)`. */
  lemma {:induction false} LinkMatchOfSource(caption: string, url: string)
    requires caption != [] && url != [] && Clean(caption) && Clean(url)
    requires ']' !in caption && ')' !in url
    ensures LinkMatch("[" + caption + "](" + url + ")") == Some((|caption| + 1, |caption| + 3 + |url|))
  {
    var s := "[" + caption + "](" + url + ")";
    var c := |caption|;
    var k := c + 3 + |url|;
    assert s[1..1 + c] == caption;
    assert s[c + 3..k] == url;
    assert s[0] == '[' && s[c + 1] == ']' && s[c + 2] == '(' && s[k] == ')';
    forall i | 1 <= i < c + 1 ensures s[i] != ']' {
      assert s[i] == caption[i - 1];
    }
    forall i | c + 3 <= i < k ensures s[i] != ')' {
      assert s[i] == url[i - c - 3];
    }
    LinkMatchAt(s, c + 1, k);
  }

  /** The link pass turns `[t](u)` into its anchor. */
  lemma {:induction false} LinkPass(caption: string, url: string)
    requires caption != [] && url != [] && Clean(caption) && Clean(url)
    requires ']' !in caption && ')' !in url
    ensures ReplaceLinks("[" + caption + "](" + url + ")") == Anchor(caption, url)
  {
    var s := "[" + caption + "](" + url + ")";
    var c := |caption|;
    LinkMatchOfSource(caption, url);
    LinkStep(s, Anchor, c + 1, c + 3 + |url|);
    assert s[1..c + 1] == caption && s[c + 3..c + 3 + |url|] == url;
    assert s[c + 3 + |url| + 1..] == [];
  }

  /**
   * `[t](u)` becomes an anchor to `u` showing `t`, when both groups are
   * non-empty and free of markers, `t` has no `]` and `u` no `)`.
   */
  lemma {:induction false} LinkSpan(caption: string, url: string)
    requires caption != [] && url != [] && MarkerFree(caption) && MarkerFree(url)
    requires ']' !in caption && ')' !in url
    ensures ParseMarkdown("[" + caption + "](" + url + ")") == Anchor(caption, url)
  {
    PlainLinkSource(caption, url);
    LinkPass(caption, url);
    AnchorHasNoNewline(caption, url);
  }

  /** The span passes do not touch a link source free of `*` and `_`. */
  lemma {:induction false} PlainLinkSource(caption: string, url: string)
    requires MarkerFree(caption) && MarkerFree(url)
    ensures var s := "[" + caption + "](" + url + ")";
      ReplaceSpans(ReplaceSpans(ReplaceSpans(ReplaceSpans(s, "**", "strong"), "__", "strong"), "*", "em"), "_", "em") == s
  {
    var s := "[" + caption + "](" + url + ")";
    assert '*' !in s && '_' !in s;
    assert s + [] == s;
    SpansSkipPlain(s, [], "**", "strong");
    SpansSkipPlain(s, [], "__", "strong");
    SpansSkipPlain(s, [], "*", "em");
    SpansSkipPlain(s, [], "_", "em");
  }

  /** An anchor built from clean groups has no newline, so the last pass keeps it. */
  lemma {:induction false} AnchorHasNoNewline(caption: string, url: string)
    requires Clean(caption) && Clean(url)
    ensures ReplaceNewlines(Anchor(caption, url)) == Anchor(caption, url)
  {
    assert IsLineTerminator('\n');
    assert '\n' !in "\" target=\"_blank\"";
    assert '\n' !in " rel=\"noopener noreferrer\"";
    assert '\n' !in " class=\"underline\">";
    assert '\n' !in LINK_ATTRIBUTES;
  }

  /** A span pass copies two pieces without the marker's character and continues after them. */
  lemma {:induction false} SpansSkipTwo(a: string, b: string, c: string, marker: string, tag: string)
    requires |marker| >= 1 && marker[0] !in a && marker[0] !in b
    ensures ReplaceSpans(a + (b + c), marker, tag) == a + (b + ReplaceSpans(c, marker, tag))
  {
    SpansSkipPlain(a, b + c, marker, tag);
    SpansSkipPlain(b, c, marker, tag);
  }

  /**
   * Bold then italic, as in `**x** and *y*`: with marker-free text `gap`
   * between them, `x` is wrapped in `strong`, `y` in `em`, and no asterisk is
   * left.
   */
  lemma {:induction false} BoldThenItalic(x: string, gap: string, y: string)
    requires x != [] && y != [] && MarkerFree(x) && MarkerFree(gap) && MarkerFree(y)
    ensures ParseMarkdown("**" + x + "**" + (gap + ("*" + y + "*")))
         == "<strong>" + x + "</strong>" + (gap + ("<em>" + y + "</em>"))
  {
    var italic := "*" + y + "*";
    var strong := OpenTag("strong") + x + CloseTag("strong");
    var em := OpenTag("em") + y + CloseTag("em");
    // `**`: the bold span is wrapped; the gap and the lone asterisks are copied.
    SpanAt(x, gap + italic, "**", "strong");
    SpansSkipPlain(gap, italic, "**", "strong");
    LoneAsterisks(y);
    // `__` and `*`: the wrapped bold span and the gap are copied; `*y*` is wrapped.
    WrappedIsPlain(x, "strong");
    SpansSkipTwo(strong, gap, italic, "__", "strong");
    SpansSkipTwo(strong, gap, italic, "*", "em");
    SingleSpan(y, "*", "em");
    // `_`, links and line breaks find nothing to change.
    WrappedIsPlain(y, "em");
    PlainTriple(strong, gap, em);
    TagsSpelledOut();
  }

  /** Three pieces free of `*`, `_`, `[` and newline pass through the remaining passes. */
  lemma {:induction false} PlainTriple(a: string, b: string, c: string)
    requires '*' !in a && '_' !in a && '[' !in a && '\n' !in a
    requires MarkerFree(b)
    requires '*' !in c && '_' !in c && '[' !in c && '\n' !in c
    ensures ReplaceSpans(a + (b + c), "_", "em") == a + (b + c)
    ensures ReplaceLinks(a + (b + c)) == a + (b + c)
    ensures ReplaceNewlines(a + (b + c)) == a + (b + c)
  {
    assert IsLineTerminator('\n');
    PassesKeepPlain(a + (b + c));
  }
}
