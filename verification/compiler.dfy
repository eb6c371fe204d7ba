/** The document compiler: one HTML document built from the three editor buffers.
    The document is a sequence of segments, each either fixed template text, one of the
    user's buffers, or one of the two pieces the playground injects (the highlight rule and
    the runtime shim script); `Render` concatenates their texts into the `srcDoc` string. */
module DocumentCompiler {

  /** The three editor buffers. */
  datatype Files = Files(html: string, css: string, js: string)

  /** A piece of the document; `text` is what it contributes to the rendered string. */
  datatype Segment =
    | Template(text: string)   // fixed markup and indentation of the template
    | UserCss(text: string)
    | HoverRule(text: string)  // the injected `.__inspect-hover` rule
    | UserHtml(text: string)
    | ShimScript(text: string) // the injected runtime script
    | UserJs(text: string)

  datatype Kind = TemplateKind | CssKind | HoverKind | HtmlKind | ShimKind | JsKind

  function KindOf(s: Segment): Kind
  {
    match s
    case Template(_) => TemplateKind
    case UserCss(_) => CssKind
    case HoverRule(_) => HoverKind
    case UserHtml(_) => HtmlKind
    case ShimScript(_) => ShimKind
    case UserJs(_) => JsKind
  }

  const DocOpen: string := "\n      <html>\n        <head>\n          <style>\n            "
  const RuleIndent: string := "\n            "
  const HoverRuleText: string :=
    ".__inspect-hover {\n" +
    "              outline: 2px solid #3b82f6 !important;\n" +
    "              cursor: crosshair !important;\n" +
    "            }"
  const HeadClose: string := "\n          </style>\n        </head>\n        <body>\n          "
  const ScriptOpen: string := "\n\n          <script>\n            "
  /** The runtime shim exactly as the template embeds it, from `const send` to the
      capture-phase click listener. */
  const ShimText: string :=
    "const send = (type, message) =>\n" +
    "              parent.postMessage({ type, message }, '*');\n" +
    "\n" +
    "            console.log = (...a) => send('log', a.join(' '));\n" +
    "            console.error = (...a) => send('error', a.join(' '));\n" +
    "\n" +
    "            let inspectEnabled = false;\n" +
    "            let lastEl = null;\n" +
    "\n" +
    "            window.addEventListener(\"message\", (e) => {\n" +
    "              if (e.data.type === \"INSPECT_ON\") inspectEnabled = true;\n" +
    "              if (e.data.type === \"INSPECT_OFF\") {\n" +
    "                inspectEnabled = false;\n" +
    "                if (lastEl) lastEl.classList.remove(\"__inspect-hover\");\n" +
    "              }\n" +
    "            });\n" +
    "\n" +
    "            document.addEventListener(\"mousemove\", (e) => {\n" +
    "              if (!inspectEnabled) return;\n" +
    "              if (lastEl) lastEl.classList.remove(\"__inspect-hover\");\n" +
    "              lastEl = e.target;\n" +
    "              lastEl.classList.add(\"__inspect-hover\");\n" +
    "            });\n" +
    "\n" +
    "            document.addEventListener(\"click\", (e) => {\n" +
    "              if (!inspectEnabled) return;\n" +
    "              e.preventDefault();\n" +
    "              e.stopPropagation();\n" +
    "\n" +
    "              const el = e.target;\n" +
    "              send(\"ELEMENT_SELECTED\", {\n" +
    "                tag: el.tagName.toLowerCase(),\n" +
    "                id: el.id || \"\",\n" +
    "                className: el.className || \"\",\n" +
    "                styles: el.getAttribute(\"style\") || \"\U{2014}\",\n" +
    "              });\n" +
    "\n" +
    "              inspectEnabled = false;\n" +
    "              if (lastEl) lastEl.classList.remove(\"__inspect-hover\");\n" +
    "            }, true);"
  const ScriptIndent: string := "\n\n            "
  const DocClose: string := "\n          </script>\n        </body>\n      </html>\n    "

  /** The document text: the segments' texts in order. */
  function Render(doc: seq<Segment>): string
  {
    if doc == [] then "" else doc[0].text + Render(doc[1..])
  }

  /** The template: user CSS, then the highlight rule, then the user HTML as the body,
      then one script element holding the shim followed by the user JS. */
  function Compile(files: Files): seq<Segment>
  {
    [ Template(DocOpen), UserCss(files.css), Template(RuleIndent), HoverRule(HoverRuleText),
      Template(HeadClose), UserHtml(files.html), Template(ScriptOpen), ShimScript(ShimText),
      Template(ScriptIndent), UserJs(files.js), Template(DocClose) ]
  }

  /** The `srcDoc` string handed to the preview frame. */
  function SrcDoc(files: Files): string
  {
    Render(Compile(files))
  }

  /** The indices of `doc` holding segments of kind `k`. */
  function Positions(doc: seq<Segment>, k: Kind): set<nat>
  {
    set i: nat | i < |doc| && KindOf(doc[i]) == k
  }

  /** Every segment of kind `a` comes before every segment of kind `b`. */
  predicate Before(doc: seq<Segment>, a: Kind, b: Kind)
  {
    forall i, j :: i in Positions(doc, a) && j in Positions(doc, b) ==> i < j
  }

  /** Where each kind sits in every compiled document, whatever the buffers hold. */
  function ShapeAt(i: nat): Kind
  {
    if i == 1 then CssKind
    else if i == 3 then HoverKind
    else if i == 5 then HtmlKind
    else if i == 7 then ShimKind
    else if i == 9 then JsKind
    else TemplateKind
  }

  /** The compiler is total and the shape of its output is the same for all buffers:
      eleven segments whose kinds are fixed; the buffers only fill in the user segments. */
  lemma CompiledShape(files: Files)
    ensures |Compile(files)| == 11
    ensures forall i: nat :: i < 11 ==> KindOf(Compile(files)[i]) == ShapeAt(i)
    ensures Compile(files)[1] == UserCss(files.css)
    ensures Compile(files)[5] == UserHtml(files.html)
    ensures Compile(files)[9] == UserJs(files.js)
  {
    var doc := Compile(files);
    forall i: nat | i < 11 ensures KindOf(doc[i]) == ShapeAt(i) {
      if i == 0 {} else if i == 1 {} else if i == 2 {} else if i == 3 {} else if i == 4 {}
      else if i == 5 {} else if i == 6 {} else if i == 7 {} else if i == 8 {} else if i == 9 {}
    }
  }

  /** Each user buffer and each injected piece occurs exactly once, and in the order
      user CSS, highlight rule, user HTML, shim, user JS. */
  lemma CompiledOrder(files: Files)
    ensures Positions(Compile(files), CssKind) == {1}
    ensures Positions(Compile(files), HoverKind) == {3}
    ensures Positions(Compile(files), HtmlKind) == {5}
    ensures Positions(Compile(files), ShimKind) == {7}
    ensures Positions(Compile(files), JsKind) == {9}
    ensures Before(Compile(files), CssKind, HoverKind)
    ensures Before(Compile(files), HtmlKind, ShimKind)
    ensures Before(Compile(files), ShimKind, JsKind)
    ensures forall i :: 9 < i < |Compile(files)| ==> Compile(files)[i].Template?
  {
    var doc := Compile(files);
    CompiledShape(files);
    forall k: Kind | k != TemplateKind
      ensures Positions(doc, k) == set i: nat | i < 11 && ShapeAt(i) == k
    {
    }
  }

  /** Nothing but the three buffers reaches the compiled document, and each of them does:
      two bundles compile to the same segments exactly when they are equal. */
  lemma CompileInjective(f: Files, g: Files)
    ensures Compile(f) == Compile(g) <==> f == g
  {
    if Compile(f) == Compile(g) {
      assert Compile(f)[1] == Compile(g)[1] && Compile(f)[5] == Compile(g)[5];
      assert Compile(f)[9] == Compile(g)[9];
    }
  }

  /** Rendering distributes over concatenation of segment sequences. */
  lemma {:induction false} RenderAppend(a: seq<Segment>, b: seq<Segment>)
    ensures Render(a + b) == Render(a) + Render(b)
  {
    if a != [] {
      assert (a + b)[0] == a[0];
      assert (a + b)[1..] == a[1..] + b;
      RenderAppend(a[1..], b);
    } else {
      assert a + b == b;
    }
  }

  /** Where the text of the segment at index `k` starts in the rendered document. */
  function Offset(doc: seq<Segment>, k: nat): nat
    requires k <= |doc|
  {
    |Render(doc[..k])|
  }

  /** The rendered text of segment `k` sits in the document between the offsets of
      `k` and `k + 1`. */
  lemma RenderSlice(doc: seq<Segment>, k: nat)
    requires k < |doc|
    ensures Offset(doc, k + 1) == Offset(doc, k) + |doc[k].text|
    ensures Offset(doc, k + 1) <= |Render(doc)|
    ensures Render(doc)[Offset(doc, k)..Offset(doc, k + 1)] == doc[k].text
  {
    assert doc[..k + 1] == doc[..k] + [doc[k]];
    RenderAppend(doc[..k], [doc[k]]);
    assert Render([doc[k]]) == doc[k].text by {
      assert [doc[k]][1..] == [];
    }
    assert doc == doc[..k + 1] + doc[k + 1..];
    RenderAppend(doc[..k + 1], doc[k + 1..]);
  }

  /** Offsets grow with the index. */
  lemma OffsetMonotone(doc: seq<Segment>, i: nat, j: nat)
    requires i <= j <= |doc|
    ensures Offset(doc, i) <= Offset(doc, j)
  {
    assert doc[..j] == doc[..i] + doc[i..j];
    RenderAppend(doc[..i], doc[i..j]);
  }

  /** The text of the last segment ends the document. */
  lemma LastSegment(doc: seq<Segment>)
    requires |doc| > 0
    ensures Offset(doc, |doc| - 1) <= |Render(doc)|
    ensures Render(doc)[Offset(doc, |doc| - 1)..] == doc[|doc| - 1].text
  {
    var n := |doc| - 1;
    assert doc == doc[..n] + [doc[n]];
    RenderAppend(doc[..n], [doc[n]]);
    assert Render([doc[n]]) == doc[n].text by {
      assert [doc[n]][1..] == [];
    }
  }

  /** A document has the compiled shape for `files` when its user and injected segments
      sit where `Compile` puts them and the closing template text ends it. */
  predicate CompiledFrom(doc: seq<Segment>, files: Files)
  {
    && |doc| == 11
    && doc[1] == UserCss(files.css) && doc[3].HoverRule? && doc[5] == UserHtml(files.html)
    && doc[7].ShimScript? && doc[9] == UserJs(files.js) && doc[10].Template?
  }

  /** The user CSS sits in the style element, before the highlight rule. */
  lemma StyleLayout(doc: seq<Segment>, files: Files)
    requires CompiledFrom(doc, files)
    ensures Offset(doc, 1) <= Offset(doc, 2) <= Offset(doc, 3) <= Offset(doc, 4) <= |Render(doc)|
    ensures Render(doc)[Offset(doc, 1)..Offset(doc, 2)] == files.css
    ensures Render(doc)[Offset(doc, 3)..Offset(doc, 4)] == doc[3].text
  {
    RenderSlice(doc, 1);
    RenderSlice(doc, 3);
    OffsetMonotone(doc, 2, 3);
  }

  /** The user HTML comes before the shim text. */
  lemma BodyLayout(doc: seq<Segment>, files: Files)
    requires CompiledFrom(doc, files)
    ensures Offset(doc, 4) <= Offset(doc, 5) <= Offset(doc, 6) <= Offset(doc, 7) <= Offset(doc, 8) <= |Render(doc)|
    ensures Render(doc)[Offset(doc, 5)..Offset(doc, 6)] == files.html
    ensures Render(doc)[Offset(doc, 7)..Offset(doc, 8)] == doc[7].text
  {
    RenderSlice(doc, 5);
    RenderSlice(doc, 7);
    OffsetMonotone(doc, 4, 5);
    OffsetMonotone(doc, 6, 7);
  }

  /** The user JS comes after the shim text, and only the closing template text follows it. */
  lemma ScriptLayout(doc: seq<Segment>, files: Files)
    requires CompiledFrom(doc, files)
    ensures Offset(doc, 8) <= Offset(doc, 9) <= Offset(doc, 10) <= |Render(doc)|
    ensures Render(doc)[Offset(doc, 9)..Offset(doc, 10)] == files.js
    ensures Render(doc)[Offset(doc, 10)..] == doc[10].text
  {
    RenderSlice(doc, 9);
    OffsetMonotone(doc, 8, 9);
    LastSegment(doc);
  }

  /** In the text of a document of that shape, the user CSS comes before the highlight
      rule, the user HTML before the shim, and the whole shim before the user JS, which
      only the closing template text follows. */
  lemma Layout(doc: seq<Segment>, files: Files)
    requires CompiledFrom(doc, files)
    ensures var text := Render(doc);
      && Offset(doc, 1) <= Offset(doc, 2) <= Offset(doc, 3) <= Offset(doc, 4) <= Offset(doc, 5)
      && Offset(doc, 5) <= Offset(doc, 6) <= Offset(doc, 7) <= Offset(doc, 8) <= Offset(doc, 9)
      && Offset(doc, 9) <= Offset(doc, 10) <= |text|
      && text[Offset(doc, 1)..Offset(doc, 2)] == files.css
      && text[Offset(doc, 3)..Offset(doc, 4)] == doc[3].text
      && text[Offset(doc, 5)..Offset(doc, 6)] == files.html
      && text[Offset(doc, 7)..Offset(doc, 8)] == doc[7].text
      && text[Offset(doc, 9)..Offset(doc, 10)] == files.js
      && text[Offset(doc, 10)..] == doc[10].text
  {
    StyleLayout(doc, files);
    BodyLayout(doc, files);
    ScriptLayout(doc, files);
  }

  /** Every compiled document has that shape, with the highlight rule, the shim and the
      closing tags as its injected texts; `Layout` then places them in `SrcDoc(files)`. */
  lemma SrcDocLayout(files: Files)
    ensures CompiledFrom(Compile(files), files)
    ensures Compile(files)[3].text == HoverRuleText
    ensures Compile(files)[7].text == ShimText
    ensures Compile(files)[10].text == DocClose
  {
  }

  /** Rendering an eleven-segment document is the concatenation of its eleven texts. */
  lemma RenderEleven(doc: seq<Segment>)
    requires |doc| == 11
    ensures Render(doc) == doc[0].text + doc[1].text + doc[2].text + doc[3].text + doc[4].text
      + doc[5].text + doc[6].text + doc[7].text + doc[8].text + doc[9].text + doc[10].text
  {
    assert doc[..0] == [];
    assert Render(doc[..1]) == doc[0].text by { RenderSnoc(doc, 0); }
    assert Render(doc[..2]) == doc[0].text + doc[1].text by { RenderSnoc(doc, 1); }
    assert Render(doc[..3]) == doc[0].text + doc[1].text + doc[2].text by { RenderSnoc(doc, 2); }
    assert Render(doc[..4]) == doc[0].text + doc[1].text + doc[2].text + doc[3].text by { RenderSnoc(doc, 3); }
    assert Render(doc[..5]) == doc[0].text + doc[1].text + doc[2].text + doc[3].text + doc[4].text by { RenderSnoc(doc, 4); }
    assert Render(doc[..6]) == doc[0].text + doc[1].text + doc[2].text + doc[3].text + doc[4].text + doc[5].text by { RenderSnoc(doc, 5); }
    assert Render(doc[..7]) == doc[0].text + doc[1].text + doc[2].text + doc[3].text + doc[4].text + doc[5].text + doc[6].text by { RenderSnoc(doc, 6); }
    assert Render(doc[..8]) == doc[0].text + doc[1].text + doc[2].text + doc[3].text + doc[4].text + doc[5].text + doc[6].text + doc[7].text by { RenderSnoc(doc, 7); }
    assert Render(doc[..9]) == doc[0].text + doc[1].text + doc[2].text + doc[3].text + doc[4].text + doc[5].text + doc[6].text + doc[7].text + doc[8].text by { RenderSnoc(doc, 8); }
    assert Render(doc[..10]) == doc[0].text + doc[1].text + doc[2].text + doc[3].text + doc[4].text + doc[5].text + doc[6].text + doc[7].text + doc[8].text + doc[9].text by { RenderSnoc(doc, 9); }
    assert Render(doc[..11]) == doc[0].text + doc[1].text + doc[2].text + doc[3].text + doc[4].text + doc[5].text + doc[6].text + doc[7].text + doc[8].text + doc[9].text + doc[10].text by { RenderSnoc(doc, 10); }
    assert doc[..11] == doc;
  }

  /** Rendering one more segment appends its text. */
  lemma RenderSnoc(doc: seq<Segment>, k: nat)
    requires k < |doc|
    ensures Render(doc[..k + 1]) == Render(doc[..k]) + doc[k].text
  {
    assert doc[..k + 1] == doc[..k] + [doc[k]];
    RenderAppend(doc[..k], [doc[k]]);
    assert [doc[k]][1..] == [];
  }

  /** The `srcDoc` string in closed form: the template's fixed texts with the three
      buffers in their places. */
  lemma SrcDocText(files: Files)
    ensures SrcDoc(files) == DocOpen + files.css + RuleIndent + HoverRuleText + HeadClose
      + files.html + ScriptOpen + ShimText + ScriptIndent + files.js + DocClose
  {
    RenderEleven(Compile(files));
  }

  /** Moving text that surrounds the script seam from the HTML to the JS changes nothing
      in the concatenation. */
  lemma {:induction false} SeamRegroup(p: string, x: string, m1: string, m2: string, m3: string, y: string, c: string, d: string)
    ensures p + (x + (m1 + m2 + m3) + y) + m1 + m2 + m3 + c + d
         == p + x + m1 + m2 + m3 + (y + (m1 + m2 + m3) + c) + d
  {
  }

  /** The script seam: the text between the HTML buffer and the JS buffer. */
  function Seam(): string
  {
    ScriptOpen + ShimText + ScriptIndent
  }

  /** HTML that holds the seam can give its tail to the JS buffer without changing a
      character of the `srcDoc` string. */
  lemma SeamShift(css: string, x: string, y: string, js: string)
    ensures SrcDoc(Files(x + Seam() + y, css, js)) == SrcDoc(Files(x, css, y + Seam() + js))
  {
    var f := Files(x + Seam() + y, css, js);
    var g := Files(x, css, y + Seam() + js);
    RenderEleven(Compile(f));
    RenderEleven(Compile(g));
    SeamRegroup(DocOpen + css + RuleIndent + HoverRuleText + HeadClose, x, ScriptOpen, ShimText, ScriptIndent, y, js, DocClose);
  }

  /** The `srcDoc` string, unlike the segment list, does not determine the buffers: two
      different bundles yield the same document. */
  lemma SrcDocNotInjective()
    ensures Files("a" + Seam() + "b", "", "c") != Files("a", "", "b" + Seam() + "c")
    ensures SrcDoc(Files("a" + Seam() + "b", "", "c")) == SrcDoc(Files("a", "", "b" + Seam() + "c"))
  {
    SeamShift("", "a", "b", "c");
    assert |"a" + Seam() + "b"| != |"a"|;
  }
}
