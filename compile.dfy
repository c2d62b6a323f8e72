/** `compileCode`: the string assembly that turns the current editors into
    the document shown in the preview frame. Fragments are pasted in
    verbatim; nothing is escaped. */
module Compile {
  import opened Types
  import opened Editors

  /** The template text around the three fragments, whitespace included,
      split at the tags that enclose them. */
  const StyleOpen: string := "<style>"
  const StyleClose: string := "</style>"
  const BodyOpen: string := "<body>"
  const ScriptOpen: string := "<script>"
  const ScriptClose: string := "</script>"
  const Indent: string := "\n          "
  const HeadOpen: string :=
    "\n      <!DOCTYPE html>\n      <html lang=\"en\">\n        <head>\n" +
    "          <meta charset=\"UTF-8\">\n" +
    "          <meta name=\"viewport\" content=\"width=device-width, initial-scale=1.0\">" +
    Indent
  const HeadClose: string := "\n        </head>\n        "
  const BodyClose: string := "\n        </body>\n      </html>\n    "

  /** The text of a document around its three fragments. */
  datatype Template = Template(head: string, afterCss: string, afterHtml: string, tail: string)

  /** The template of `compileCode`: the head ends in an opening style
      tag, the text after the CSS closes it and opens the body, the text
      after the HTML opens a script element, and the tail closes it. */
  const Page: Template := Template(
    HeadOpen + StyleOpen,
    StyleClose + HeadClose + BodyOpen + Indent,
    Indent + ScriptOpen,
    ScriptClose + BodyClose)

  /** Position `i` holds the first editor of `lang` in `s`. */
  predicate FirstOfAt(s: seq<Editor>, lang: Language, i: int) {
    0 <= i < |s| && s[i].language == lang && forall j :: 0 <= j < i ==> s[j].language != lang
  }

  /** `editors.find(e => e.language === lang)`: the first editor of
      `lang`, if any. */
  function Find(s: seq<Editor>, lang: Language): (r: Option<Editor>)
    ensures r.None? <==> !HasLanguage(s, lang)
    ensures forall i :: FirstOfAt(s, lang, i) ==> r == Some(s[i])
  {
    if s == [] then None
    else if s[0].language == lang then Some(s[0])
    else
      var r := Find(s[1..], lang);
      assert forall i :: FirstOfAt(s, lang, i) ==> FirstOfAt(s[1..], lang, i - 1);
      assert HasLanguage(s, lang) <==> HasLanguage(s[1..], lang) by {
        if HasLanguage(s, lang) {
          var i :| 0 <= i < |s| && s[i].language == lang;
          assert s[1..][i - 1].language == lang;
        }
      }
      r
  }

  /** `?.code || ''`: the code of that editor, or the empty string. */
  function CodeOf(s: seq<Editor>, lang: Language): (c: string)
    ensures !HasLanguage(s, lang) ==> c == ""
    ensures forall i :: FirstOfAt(s, lang, i) ==> c == s[i].code
  {
    match Find(s, lang)
    case Some(e) => e.code
    case None => ""
  }

  /** A template filled with the three fragments, copied verbatim. */
  function Fill(t: Template, css: string, html: string, js: string): (doc: string)
    ensures |doc| == |t.head| + |css| + |t.afterCss| + |html| + |t.afterHtml| + |js| + |t.tail|
  {
    t.head + (css + (t.afterCss + (html + (t.afterHtml + (js + t.tail)))))
  }

  /** The rest of `doc` after `p`, when `doc` starts with `p`. */
  function AfterPrefix(doc: string, p: string): (r: Option<string>)
    ensures r.Some? <==> |p| <= |doc| && doc[..|p|] == p
    ensures r.Some? ==> doc == p + r.value
  {
    if |p| <= |doc| && doc[..|p|] == p then Some(doc[|p|..]) else None
  }

  /** Reading the fragments back out of a document, given the lengths of
      the CSS and HTML fragments: every piece of template text must be
      where Fill puts it. */
  function Decompose(t: Template, doc: string, cssLen: nat, htmlLen: nat): (r: Option<(string, string, string)>)
  {
    match AfterPrefix(doc, t.head)
    case None => None
    case Some(r1) =>
      if cssLen > |r1| then None else
      match AfterPrefix(r1[cssLen..], t.afterCss)
      case None => None
      case Some(r2) =>
        if htmlLen > |r2| then None else
        match AfterPrefix(r2[htmlLen..], t.afterHtml)
        case None => None
        case Some(r3) =>
          if |t.tail| <= |r3| && r3[|r3| - |t.tail|..] == t.tail
          then Some((r1[..cssLen], r2[..htmlLen], r3[..|r3| - |t.tail|]))
          else None
  }

  lemma PrefixOfConcat(x: string, y: string)
    ensures AfterPrefix(x + y, x) == Some(y)
  {
    assert (x + y)[..|x|] == x;
  }

  /** Knowing the lengths, the fragments are recovered exactly. */
  lemma DecomposeFill(t: Template, css: string, html: string, js: string)
    ensures Decompose(t, Fill(t, css, html, js), |css|, |html|) == Some((css, html, js))
  {
    var r3 := js + t.tail;
    var r2 := html + (t.afterHtml + r3);
    var r1 := css + (t.afterCss + r2);
    PrefixOfConcat(t.head, r1);
    assert r1[..|css|] == css && r1[|css|..] == t.afterCss + r2;
    PrefixOfConcat(t.afterCss, r2);
    assert r2[..|html|] == html && r2[|html|..] == t.afterHtml + r3;
    PrefixOfConcat(t.afterHtml, r3);
    assert r3[|r3| - |t.tail|..] == t.tail && r3[..|r3| - |t.tail|] == js;
  }

  /** And a document read back is the one filled in from what was read. */
  lemma FillDecompose(t: Template, doc: string, cssLen: nat, htmlLen: nat)
    requires Decompose(t, doc, cssLen, htmlLen).Some?
    ensures var (css, html, js) := Decompose(t, doc, cssLen, htmlLen).value;
      Fill(t, css, html, js) == doc
  {
    var r1 := AfterPrefix(doc, t.head).value;
    var r2 := AfterPrefix(r1[cssLen..], t.afterCss).value;
    var r3 := AfterPrefix(r2[htmlLen..], t.afterHtml).value;
    var (css, html, js) := Decompose(t, doc, cssLen, htmlLen).value;
    assert js == r3[..|r3| - |t.tail|];
    assert r3 == js + t.tail;
    assert r2 == html + r2[htmlLen..];
    assert r1 == css + r1[cssLen..];
  }

  /** Because nothing is escaped, a fragment can close its own element: a
      CSS fragment that ends in the text following it in the template gives
      the same document as a shorter CSS fragment with a different HTML
      fragment. */
  lemma FragmentsNotEscaped(t: Template, css: string, js: string)
    requires t.afterCss != []
    ensures Fill(t, css + t.afterCss, "", js) == Fill(t, css, t.afterCss, js)
    ensures css + t.afterCss != css
  {
    var rest := t.afterHtml + (js + t.tail);
    assert (css + t.afterCss) + (t.afterCss + ("" + rest)) == css + (t.afterCss + (t.afterCss + rest));
  }

  /** The filled template spelled out piece by piece, for a template whose
      pieces are themselves split in two and four parts. */
  lemma {:induction false} FillSpelled(h1: string, h2: string, a1: string, a2: string, a3: string, a4: string,
                                       b1: string, b2: string, c1: string, c2: string,
                                       css: string, html: string, js: string)
    ensures Fill(Template(h1 + h2, a1 + a2 + a3 + a4, b1 + b2, c1 + c2), css, html, js) ==
      h1 + h2 + css + a1 + a2 + a3 + a4 + html + b1 + b2 + js + c1 + c2
  {
    var x := js + (c1 + c2);
    assert (b1 + b2) + x == b1 + b2 + js + c1 + c2;
    var y := html + (b1 + b2 + js + c1 + c2);
    assert (a1 + a2 + a3 + a4) + y == a1 + a2 + a3 + a4 + html + b1 + b2 + js + c1 + c2;
    var z := css + (a1 + a2 + a3 + a4 + html + b1 + b2 + js + c1 + c2);
    assert (h1 + h2) + z == h1 + h2 + css + a1 + a2 + a3 + a4 + html + b1 + b2 + js + c1 + c2;
  }

  /** The page spelled out tag by tag: the CSS inside the style element of
      the head, the HTML as the body's content, the JS inside a script
      element at the end of the body, in that order and each copied
      verbatim. */
  lemma PageLayout(css: string, html: string, js: string)
    ensures Fill(Page, css, html, js) ==
      HeadOpen + StyleOpen + css + StyleClose + HeadClose +
      BodyOpen + Indent + html + Indent + ScriptOpen + js + ScriptClose + BodyClose
  {
    FillSpelled(HeadOpen, StyleOpen, StyleClose, HeadClose, BodyOpen, Indent,
      Indent, ScriptOpen, ScriptClose, BodyClose, css, html, js);
  }

  /** `compileCode`: the page filled with the code of the first editor of
      each language. */
  function CompileCode(editors: seq<Editor>): (doc: string)
    ensures Decompose(Page, doc, |CodeOf(editors, Css)|, |CodeOf(editors, Html)|)
      == Some((CodeOf(editors, Css), CodeOf(editors, Html), CodeOf(editors, Js)))
  {
    DecomposeFill(Page, CodeOf(editors, Css), CodeOf(editors, Html), CodeOf(editors, Js));
    Fill(Page, CodeOf(editors, Css), CodeOf(editors, Html), CodeOf(editors, Js))
  }

  /** No editors gives the bare page: non-empty, with empty style, body and
      script contents. */
  lemma CompileNoEditors()
    ensures CompileCode([]) == Fill(Page, "", "", "")
    ensures |CompileCode([])| > 0
  {
  }

  /** With one editor per language, each language's fragment is the code of
      its (only) editor. */
  lemma CodeOfOnly(s: seq<Editor>, k: nat)
    requires OnePerLanguage(s) && k < |s|
    ensures Find(s, s[k].language) == Some(s[k])
    ensures CodeOf(s, s[k].language) == s[k].code
  {
    assert FirstOfAt(s, s[k].language, k);
  }

  /** A language occurs in a non-empty sequence exactly when it is the
      head's or it occurs in the tail. */
  lemma HasLanguageCons(s: seq<Editor>, lang: Language)
    requires s != []
    ensures HasLanguage(s, lang) <==> s[0].language == lang || HasLanguage(s[1..], lang)
  {
    if HasLanguage(s[1..], lang) {
      var i :| 0 <= i < |s[1..]| && s[1..][i].language == lang;
      assert s[i + 1].language == lang;
    }
    if HasLanguage(s, lang) && s[0].language != lang {
      var i :| 0 <= i < |s| && s[i].language == lang;
      assert s[1..][i - 1].language == lang;
    }
  }

  /** Editors after the first one of a language are ignored. */
  lemma {:induction false} FindAppend(s: seq<Editor>, t: seq<Editor>, lang: Language)
    ensures Find(s + t, lang) == if HasLanguage(s, lang) then Find(s, lang) else Find(t, lang)
  {
    if s != [] {
      assert (s + t)[1..] == s[1..] + t;
      FindAppend(s[1..], t, lang);
      HasLanguageCons(s, lang);
    } else {
      assert [] + t == t;
    }
  }

  /** Updating the code of an id changes what `find` returns exactly when
      the editor it returns has that id. */
  lemma {:induction false} FindAfterUpdate(s: seq<Editor>, id: string, value: string, lang: Language)
    ensures Find(UpdateEditorCode(s, id, value), lang) ==
      match Find(s, lang)
      case None => None
      case Some(e) => Some(if e.id == id then e.(code := value) else e)
  {
    if s != [] {
      var r := UpdateEditorCode(s, id, value);
      assert r[1..] == UpdateEditorCode(s[1..], id, value);
      assert r[0].language == s[0].language;
      FindAfterUpdate(s[1..], id, value, lang);
    }
  }

  /** Typing into one editor changes exactly that language's fragment of the
      compiled document. */
  lemma CompileAfterUpdate(s: seq<Editor>, k: nat, value: string, lang: Language)
    requires OnePerLanguage(s) && UniqueIds(s) && k < |s|
    ensures CodeOf(UpdateEditorCode(s, s[k].id, value), lang) ==
      if lang == s[k].language then value else CodeOf(s, lang)
  {
    FindAfterUpdate(s, s[k].id, value, lang);
    if lang == s[k].language {
      CodeOfOnly(s, k);
    } else if HasLanguage(s, lang) {
      var i :| 0 <= i < |s| && s[i].language == lang;
      CodeOfOnly(s, i);
      assert i != k;
    }
  }

  /** Adding an editor for a missing language puts its placeholder code in
      that language's slot and leaves the other slots as they were. */
  lemma CompileAfterAdd(s: seq<Editor>, lang: Language, now: nat, other: Language)
    requires AddEditor(s, lang, now).Updated?
    ensures CodeOf(AddEditor(s, lang, now).editors, lang) == NewEditor(lang, now).code
    ensures other != lang ==> CodeOf(AddEditor(s, lang, now).editors, other) == CodeOf(s, other)
  {
    var e := NewEditor(lang, now);
    FindAppend(s, [e], lang);
    FindAppend(s, [e], other);
    assert FirstOfAt([e], lang, 0);
  }
}
