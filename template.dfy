/** The caption template of sirius/web/printer_print.py (`gentemplate`): a fixed
    HTML snippet whose only replacement field is `{0}`, filled in with Python's
    `str.format`. The part of `str.format` the template relies on is modelled
    explicitly: `{{` and `}}` stand for single braces, `{0}` is replaced by the
    argument verbatim, and everything else is copied. */
module Template {
  import opened Wrappers

  /** The template literal as written in the source, escaped braces included, cut
      into its brace-free pieces around the field `{0}` and the escapes `{{` and
      `}}`. The backslash after the opening quotes joins the first line to the
      quotes, so the text starts with the four spaces before `<p>`. */
  const TemplateSource: string :=
    Prefix + "{0}" + BeforeOpenBrace + "{{" + RuleBody + "}}" + AfterCloseBrace

  // The template's lines, cut where a brace begins or ends.
  /** The text before the field, which the formatted template puts before the caption. */
  const Prefix: string := "    <p>"
  const ParagraphClose: string := "</p>\n"
  const StyleOpen: string := "    <style>\n"
  const RuleSelector: string := "   p"
  const FontWeight: string := "            font-weight:700;\n"
  const FontSize: string := "            font-size:70px;\n"
  const TextTransform: string := "            text-transform:uppercase;\n"
  const LineHeight: string := "            line-height:1;\n"
  const FontFamily: string := "            font-family: Arial;\n"
  const RuleWidth: string := "            width:385px;\n"
  const StyleClose: string := "    </style>\n"
  const Indent: string := "    "

  const BeforeOpenBrace: string := ParagraphClose + StyleOpen + RuleSelector
  const RuleBody: string :=
    "\n" + FontWeight + FontSize + TextTransform + LineHeight + FontFamily + RuleWidth + Indent
  const AfterCloseBrace: string := "\n" + StyleClose + Indent

  /** What the formatted template puts after the caption: the escaped braces of
      the source are single braces here. */
  const Suffix: string := BeforeOpenBrace + "{" + RuleBody + "}" + AfterCloseBrace

  /** Puts `p` in front of a formatted text; a failed formatting stays failed. */
  function Prepend(p: string, o: Option<string>): Option<string>
  {
    match o
    case None => None
    case Some(t) => Some(p + t)
  }

  /** `template.format(arg)` for a template whose fields are all `{0}`. A single
      brace that is neither escaped nor part of `{0}` makes Python raise an
      exception; here it gives None. A template without braces is copied as is. */
  function Format(template: string, arg: string): (r: Option<string>)
    ensures '{' !in template && '}' !in template ==> r == Some(template)
    decreases |template|
  {
    if |template| == 0 then Some("")
    else if template[0] == '{' then
      if |template| >= 2 && template[1] == '{' then Prepend("{", Format(template[2..], arg))
      else if |template| >= 3 && template[1] == '0' && template[2] == '}' then
        Prepend(arg, Format(template[3..], arg))
      else None
    else if template[0] == '}' then
      if |template| >= 2 && template[1] == '}' then Prepend("}", Format(template[2..], arg))
      else None
    else
      assert template == [template[0]] + template[1..];
      Prepend([template[0]], Format(template[1..], arg))
  }

  /** A character that is not a brace is copied by formatting. */
  lemma FormatPlainChar(c: char, rest: string, arg: string)
    requires c != '{' && c != '}'
    ensures Format([c] + rest, arg) == Prepend([c], Format(rest, arg))
  {
    assert ([c] + rest)[1..] == rest;
  }

  lemma PrependEmpty(o: Option<string>)
    ensures Prepend("", o) == o
  {
    if o.Some? {
      assert "" + o.value == o.value;
    }
  }

  lemma PrependTwice(a: string, b: string, o: Option<string>)
    ensures Prepend(a, Prepend(b, o)) == Prepend(a + b, o)
  {
    if o.Some? {
      assert a + (b + o.value) == (a + b) + o.value;
    }
  }

  /** Brace-free text in front of a template passes through formatting unchanged. */
  lemma {:induction false} FormatPlainPrefix(p: string, rest: string, arg: string)
    requires '{' !in p && '}' !in p
    ensures Format(p + rest, arg) == Prepend(p, Format(rest, arg))
  {
    if p == [] {
      assert p + rest == rest;
      PrependEmpty(Format(rest, arg));
    } else {
      var t := p[1..] + rest;
      assert p + rest == [p[0]] + t;
      assert p[0] in p;
      FormatPlainChar(p[0], t, arg);
      FormatPlainPrefix(p[1..], rest, arg);
      PrependTwice([p[0]], p[1..], Format(rest, arg));
      assert [p[0]] + p[1..] == p;
    }
  }

  /** `{{` formats to a single `{`. */
  lemma FormatOpenEscape(rest: string, arg: string)
    ensures Format("{{" + rest, arg) == Prepend("{", Format(rest, arg))
  {
    assert ("{{" + rest)[2..] == rest;
  }

  /** `}}` formats to a single `}`. */
  lemma FormatCloseEscape(rest: string, arg: string)
    ensures Format("}}" + rest, arg) == Prepend("}", Format(rest, arg))
  {
    assert ("}}" + rest)[2..] == rest;
  }

  /** `{0}` formats to the argument, which is inserted as it is and not scanned again. */
  lemma FormatField(rest: string, arg: string)
    ensures Format("{0}" + rest, arg) == Prepend(arg, Format(rest, arg))
  {
    assert ("{0}" + rest)[3..] == rest;
  }

  // No piece between the braces holds a brace of its own.
  lemma FontLinesBraceFree()
    ensures '{' !in FontWeight && '}' !in FontWeight
    ensures '{' !in FontSize && '}' !in FontSize
    ensures '{' !in FontFamily && '}' !in FontFamily
  {
  }

  lemma LayoutLinesBraceFree()
    ensures '{' !in TextTransform && '}' !in TextTransform
    ensures '{' !in LineHeight && '}' !in LineHeight
    ensures '{' !in RuleWidth && '}' !in RuleWidth
  {
  }

  lemma FramingBraceFree()
    ensures '{' !in Prefix && '}' !in Prefix
    ensures '{' !in BeforeOpenBrace && '}' !in BeforeOpenBrace
    ensures '{' !in AfterCloseBrace && '}' !in AfterCloseBrace
  {
  }

  lemma RuleBodyBraceFree()
    ensures '{' !in RuleBody && '}' !in RuleBody
  {
    FontLinesBraceFree();
    LayoutLinesBraceFree();
  }

  lemma RegroupSource(a: string, b: string, c: string, d: string, e: string, f: string, g: string)
    ensures a + b + c + d + e + f + g == a + (b + (c + (d + (e + (f + g)))))
  {
  }

  lemma RegroupSuffix(a: string, b: string, c: string, d: string, e: string)
    ensures a + b + c + d + e == a + (b + (c + (d + e)))
  {
  }

  /** Formatting the caption template with a (byte-string) caption `instr` succeeds
      and gives the prefix, then `instr` unchanged, then the suffix with the escaped
      braces undone. */
  lemma FormatTemplate(instr: string)
    ensures Format(TemplateSource, instr) == Some(Prefix + instr + Suffix)
  {
    RuleBodyBraceFree();
    FramingBraceFree();
    RegroupSource(Prefix, "{0}", BeforeOpenBrace, "{{", RuleBody, "}}", AfterCloseBrace);
    RegroupSuffix(BeforeOpenBrace, "{", RuleBody, "}", AfterCloseBrace);
    var tail := "}}" + AfterCloseBrace;
    var rule := RuleBody + tail;
    var brace := "{{" + rule;
    var afterField := BeforeOpenBrace + brace;
    var fromField := "{0}" + afterField;
    FormatCloseEscape(AfterCloseBrace, instr);
    var t1 := "}" + AfterCloseBrace;
    assert Format(tail, instr) == Some(t1);
    FormatPlainPrefix(RuleBody, tail, instr);
    var t2 := RuleBody + t1;
    assert Format(rule, instr) == Some(t2);
    FormatOpenEscape(rule, instr);
    var t3 := "{" + t2;
    assert Format(brace, instr) == Some(t3);
    FormatPlainPrefix(BeforeOpenBrace, brace, instr);
    var t4 := BeforeOpenBrace + t3;
    assert t4 == Suffix;
    assert Format(afterField, instr) == Some(Suffix);
    FormatField(afterField, instr);
    assert Format(fromField, instr) == Some(instr + Suffix);
    FormatPlainPrefix(Prefix, fromField, instr);
    assert Prefix + (instr + Suffix) == Prefix + instr + Suffix;
  }

  /** `gentemplate`: the caption template formatted with `instr`. */
  function GenTemplate(instr: string): (r: string)
    ensures r == Prefix + instr + Suffix
  {
    FormatTemplate(instr);
    Format(TemplateSource, instr).value
  }

  /** The caption between the fixed prefix and suffix of a formatted template, or
      None for text that is not framed by them. */
  function Caption(html: string): (r: Option<string>)
    ensures r.Some? ==> Prefix + r.value + Suffix == html
  {
    if |html| >= |Prefix| + |Suffix| && html[..|Prefix|] == Prefix && html[|html| - |Suffix|..] == Suffix
    then
      assert html == html[..|Prefix|] + html[|Prefix|..|html| - |Suffix|] + html[|html| - |Suffix|..];
      Some(html[|Prefix|..|html| - |Suffix|])
    else None
  }

  /** A byte-string caption is inserted verbatim and can be read back from the
      formatted template, braces included. */
  lemma {:induction false} CaptionRoundTrip(instr: string)
    ensures Caption(GenTemplate(instr)) == Some(instr)
  {
    var r := GenTemplate(instr);
    assert r[..|Prefix|] == Prefix;
    assert r[|r| - |Suffix|..] == Suffix;
    assert r[|Prefix|..|r| - |Suffix|] == instr;
  }

  /** Different captions give different templates. */
  lemma GenTemplateInjective(a: string, b: string)
    ensures GenTemplate(a) == GenTemplate(b) <==> a == b
  {
    if GenTemplate(a) == GenTemplate(b) {
      CaptionRoundTrip(a);
      CaptionRoundTrip(b);
    }
  }

  /** The caption is the body of the template's `<p>` element: the prefix ends with
      the opening tag and the suffix starts with the closing one. */
  lemma CaptionInParagraph(instr: string)
    ensures GenTemplate(instr)[|Prefix| - 3..|Prefix|] == "<p>"
    ensures GenTemplate(instr)[|Prefix| + |instr|..|Prefix| + |instr| + 4] == "</p>"
  {
    var r := GenTemplate(instr);
    assert r[|Prefix| - 3..|Prefix|] == Prefix[|Prefix| - 3..];
    assert r[|Prefix| + |instr|..|Prefix| + |instr| + 4] == Suffix[..4];
    assert Suffix[..4] == ParagraphClose[..4];
  }
}
