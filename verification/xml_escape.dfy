/** `escapeXml`: the five predefined entities of section 4.6 of XML 1.0,
    applied as five successive global replacements, `&` first. */
module XmlEscape {
  import opened Text

  /** `s.replace(/c/g, rep)`. */
  function ReplaceAll(s: string, c: char, rep: string): string {
    if |s| == 0 then ""
    else (if s[0] == c then rep else [s[0]]) + ReplaceAll(s[1..], c, rep)
  }

  /** The character replaced by the `k`-th pass of the chain, in source order. */
  function PassChar(k: nat): char
    requires k < 5
  {
    match k
    case 0 => '&'
    case 1 => '<'
    case 2 => '>'
    case 3 => '"'
    case _ => '\''
  }

  /** The entity the `k`-th pass writes. */
  function PassEntity(k: nat): string
    requires k < 5
  {
    match k
    case 0 => "&amp;"
    case 1 => "&lt;"
    case 2 => "&gt;"
    case 3 => "&quot;"
    case _ => "&apos;"
  }

  /** The pass that replaces `c`, or 5 when no pass does. */
  function PassIndex(c: char): (k: nat)
    ensures k <= 5
    ensures k < 5 ==> PassChar(k) == c
    ensures k == 5 <==> !IsSpecial(c)
  {
    match c
    case '&' => 0
    case '<' => 1
    case '>' => 2
    case '"' => 3
    case '\'' => 4
    case _ => 5
  }

  /** Passes `k` to 4 of the chain applied to `s`. */
  function ApplyPasses(s: string, k: nat): string
    requires k <= 5
    decreases 5 - k
  {
    if k == 5 then s else ApplyPasses(ReplaceAll(s, PassChar(k), PassEntity(k)), k + 1)
  }

  /** `escapeXml`: the five replacements in source order, `&` first. */
  function EscapeXml(s: string): string {
    ApplyPasses(s, 0)
  }

  predicate IsSpecial(c: char) {
    c == '&' || c == '<' || c == '>' || c == '"' || c == '\''
  }

  /** A run with none of the five characters. */
  predicate Clean(s: string) {
    forall i :: 0 <= i < |s| ==> !IsSpecial(s[i])
  }

  /** The entity for one character, or the character itself. */
  function EscapeChar(c: char): (r: string)
    ensures !IsSpecial(c) ==> r == [c]
    ensures IsSpecial(c) ==> |r| >= 4 && r[0] == '&'
  {
    match c
    case '&' => "&amp;"
    case '<' => "&lt;"
    case '>' => "&gt;"
    case '"' => "&quot;"
    case '\'' => "&apos;"
    case _ => [c]
  }

  /** A single left-to-right pass mapping each character to its escape. */
  function EscapeMap(s: string): string {
    if |s| == 0 then "" else EscapeChar(s[0]) + EscapeMap(s[1..])
  }

  lemma {:induction false} ReplaceAllAppend(a: string, b: string, c: char, rep: string)
    ensures ReplaceAll(a + b, c, rep) == ReplaceAll(a, c, rep) + ReplaceAll(b, c, rep)
  {
    if |a| == 0 {
      assert a + b == b;
    } else {
      assert (a + b)[1..] == a[1..] + b;
      ReplaceAllAppend(a[1..], b, c, rep);
    }
  }

  lemma {:induction false} ReplaceAllAbsent(s: string, c: char, rep: string)
    requires c !in s
    ensures ReplaceAll(s, c, rep) == s
  {
    if |s| > 0 {
      ReplaceAllAbsent(s[1..], c, rep);
    }
  }

  lemma {:induction false} ApplyPassesAppend(a: string, b: string, k: nat)
    requires k <= 5
    ensures ApplyPasses(a + b, k) == ApplyPasses(a, k) + ApplyPasses(b, k)
    decreases 5 - k
  {
    if k < 5 {
      ReplaceAllAppend(a, b, PassChar(k), PassEntity(k));
      ApplyPassesAppend(ReplaceAll(a, PassChar(k), PassEntity(k)), ReplaceAll(b, PassChar(k), PassEntity(k)), k + 1);
    }
  }

  lemma EscapeXmlAppend(a: string, b: string)
    ensures EscapeXml(a + b) == EscapeXml(a) + EscapeXml(b)
  {
    ApplyPassesAppend(a, b, 0);
  }

  lemma {:induction false} ApplyPassesUntouched(s: string, k: nat)
    requires k <= 5
    requires forall j :: k <= j < 5 ==> PassChar(j) !in s
    ensures ApplyPasses(s, k) == s
    decreases 5 - k
  {
    if k < 5 {
      ReplaceAllAbsent(s, PassChar(k), PassEntity(k));
      ApplyPassesUntouched(s, k + 1);
    }
  }

  lemma ReplaceAllSingle(c: char, x: char, rep: string)
    ensures ReplaceAll([c], x, rep) == if c == x then rep else [c]
  {
    assert [c][1..] == "";
  }

  /** The entity written by pass `k` contains no character a later pass replaces. */
  lemma EntitySurvives(k: nat)
    requires k < 5
    ensures forall j :: k < j < 5 ==> PassChar(j) !in PassEntity(k)
  {
  }

  lemma {:induction false} ApplyPassesChar(c: char, k: nat)
    requires k <= 5
    ensures ApplyPasses([c], k) == if k <= PassIndex(c) < 5 then PassEntity(PassIndex(c)) else [c]
    decreases 5 - k
  {
    if k < 5 {
      ReplaceAllSingle(c, PassChar(k), PassEntity(k));
      if c == PassChar(k) {
        assert PassIndex(c) == k;
        EntitySurvives(k);
        ApplyPassesUntouched(PassEntity(k), k + 1);
      } else {
        ApplyPassesChar(c, k + 1);
      }
    }
  }

  lemma EscapeXmlChar(c: char)
    ensures EscapeXml([c]) == EscapeChar(c)
  {
    ApplyPassesChar(c, 0);
  }

  /** Because `&` is replaced first, the five passes equal one per-character pass. */
  lemma {:induction false} EscapeXmlIsMap(s: string)
    ensures EscapeXml(s) == EscapeMap(s)
  {
    if |s| > 0 {
      assert s == [s[0]] + s[1..];
      ApplyPassesAppend([s[0]], s[1..], 0);
      EscapeXmlChar(s[0]);
      EscapeXmlIsMap(s[1..]);
    }
  }

  /** One of the five entities starts at index `i`. */
  predicate EntityAt(r: string, i: nat)
    requires i <= |r|
  {
    var t := r[i..];
    StartsWith(t, "&amp;") || StartsWith(t, "&lt;") || StartsWith(t, "&gt;")
    || StartsWith(t, "&quot;") || StartsWith(t, "&apos;")
  }

  /** No markup-significant character other than `&`. */
  predicate NoBareMarkup(r: string) {
    forall i :: 0 <= i < |r| ==> r[i] != '<' && r[i] != '>' && r[i] != '"' && r[i] != '\''
  }

  /** Every `&` begins one of the five entities. */
  predicate AmpersandsStartEntities(r: string) {
    forall i :: 0 <= i < |r| && r[i] == '&' ==> EntityAt(r, i)
  }

  /** The escaped text is safe inside a quoted attribute value: no `<`, `>`,
      `"` or `'` is left, and every `&` begins one of the five entities. */
  lemma {:induction false} EscapeXmlSafe(s: string)
    ensures NoBareMarkup(EscapeXml(s)) && AmpersandsStartEntities(EscapeXml(s))
  {
    EscapeXmlIsMap(s);
    EscapeMapSafe(s);
  }

  /** The escape of one character has only `&` where an entity starts, at its head. */
  lemma EscapeCharSafe(c: char, t: string)
    ensures NoBareMarkup(EscapeChar(c))
    ensures forall i :: 0 < i < |EscapeChar(c)| ==> EscapeChar(c)[i] != '&'
    ensures IsSpecial(c) ==> EntityAt(EscapeChar(c) + t, 0)
  {
    var e := EscapeChar(c);
    if IsSpecial(c) {
      assert (e + t)[0..][..|e|] == e;
    }
  }

  lemma {:induction false} EscapeMapSafe(s: string)
    ensures NoBareMarkup(EscapeMap(s)) && AmpersandsStartEntities(EscapeMap(s))
  {
    if |s| > 0 {
      EscapeMapSafe(s[1..]);
      var e := EscapeChar(s[0]);
      var t := EscapeMap(s[1..]);
      var r := e + t;
      EscapeCharSafe(s[0], t);
      forall i | 0 <= i < |r| ensures r[i] != '<' && r[i] != '>' && r[i] != '"' && r[i] != '\'' {
        if i >= |e| { assert r[i] == t[i - |e|]; } else { assert r[i] == e[i]; }
      }
      forall i | 0 <= i < |r| && r[i] == '&' ensures EntityAt(r, i) {
        if i >= |e| {
          assert r[i] == t[i - |e|];
          assert r[i..] == t[i - |e|..];
        } else {
          assert r[i] == e[i];
          assert i == 0;
        }
      }
    }
  }

  /** Decoding of the five entities, left to right (what an XML parser does
      to an attribute value). */
  function Unescape(r: string): string
    decreases |r|
  {
    if |r| == 0 then ""
    else if StartsWith(r, "&amp;") then "&" + Unescape(r[5..])
    else if StartsWith(r, "&lt;") then "<" + Unescape(r[4..])
    else if StartsWith(r, "&gt;") then ">" + Unescape(r[4..])
    else if StartsWith(r, "&quot;") then "\"" + Unescape(r[6..])
    else if StartsWith(r, "&apos;") then "'" + Unescape(r[6..])
    else [r[0]] + Unescape(r[1..])
  }

  lemma UnescapeCons(c: char, t: string)
    ensures Unescape(EscapeChar(c) + t) == [c] + Unescape(t)
  {
    match c
    case '&' => UnescapeAmp(t);
    case '<' => UnescapeLt(t);
    case '>' => UnescapeGt(t);
    case '"' => UnescapeQuot(t);
    case '\'' => UnescapeApos(t);
    case _ => UnescapePlain(c, t);
  }

  lemma UnescapePlain(c: char, t: string)
    requires !IsSpecial(c)
    ensures Unescape([c] + t) == [c] + Unescape(t)
  {
    var r := [c] + t;
    assert r[0] == c;
    NotEntityStart(r, "&amp;");
    NotEntityStart(r, "&lt;");
    NotEntityStart(r, "&gt;");
    NotEntityStart(r, "&quot;");
    NotEntityStart(r, "&apos;");
    assert r[1..] == t;
  }

  lemma NotEntityStart(r: string, e: string)
    requires |r| > 0 && r[0] != '&' && |e| > 0 && e[0] == '&'
    ensures !StartsWith(r, e)
  {
  }

  lemma UnescapeAmp(t: string)
    ensures Unescape("&amp;" + t) == "&" + Unescape(t)
  {
    var r := "&amp;" + t;
    assert r[..5] == "&amp;";
    assert r[5..] == t;
  }

  lemma UnescapeLt(t: string)
    ensures Unescape("&lt;" + t) == "<" + Unescape(t)
  {
    var r := "&lt;" + t;
    assert r[1] == 'l';
    assert r[..4] == "&lt;";
    assert r[4..] == t;
  }

  lemma UnescapeGt(t: string)
    ensures Unescape("&gt;" + t) == ">" + Unescape(t)
  {
    var r := "&gt;" + t;
    assert r[1] == 'g';
    assert r[..4] == "&gt;";
    assert r[4..] == t;
  }

  lemma UnescapeQuot(t: string)
    ensures Unescape("&quot;" + t) == "\"" + Unescape(t)
  {
    var r := "&quot;" + t;
    assert r[1] == 'q';
    assert r[..6] == "&quot;";
    assert r[6..] == t;
  }

  lemma UnescapeApos(t: string)
    ensures Unescape("&apos;" + t) == "'" + Unescape(t)
  {
    var r := "&apos;" + t;
    assert r[1] == 'a' && r[2] == 'p';
    assert r[..6] == "&apos;";
    assert r[6..] == t;
  }

  /** Decoding the escaped text gives back the input. */
  lemma {:induction false} EscapeRoundTrip(s: string)
    ensures Unescape(EscapeXml(s)) == s
  {
    EscapeXmlIsMap(s);
    EscapeMapRoundTrip(s);
  }

  lemma {:induction false} EscapeMapRoundTrip(s: string)
    ensures Unescape(EscapeMap(s)) == s
  {
    if |s| > 0 {
      EscapeMapRoundTrip(s[1..]);
      UnescapeCons(s[0], EscapeMap(s[1..]));
      assert s == [s[0]] + s[1..];
    }
  }

  /** Text without any of the five characters is returned unchanged. */
  lemma {:induction false} EscapeClean(s: string)
    requires Clean(s)
    ensures EscapeXml(s) == s
  {
    EscapeXmlIsMap(s);
    EscapeMapClean(s);
  }

  lemma {:induction false} EscapeMapClean(s: string)
    requires Clean(s)
    ensures EscapeMap(s) == s
  {
    if |s| > 0 {
      EscapeMapClean(s[1..]);
      assert s == [s[0]] + s[1..];
    }
  }

  function CountChar(s: string, c: char): nat {
    if |s| == 0 then 0 else (if s[0] == c then 1 else 0) + CountChar(s[1..], c)
  }

  /** Each `&` grows by four characters, `<` and `>` by three, quotes by five. */
  lemma {:induction false} EscapeLength(s: string)
    ensures |EscapeXml(s)| == |s| + 4 * CountChar(s, '&')
                                  + 3 * (CountChar(s, '<') + CountChar(s, '>'))
                                  + 5 * (CountChar(s, '"') + CountChar(s, '\''))
  {
    EscapeXmlIsMap(s);
    EscapeMapLength(s);
  }

  lemma {:induction false} EscapeMapLength(s: string)
    ensures |EscapeMap(s)| == |s| + 4 * CountChar(s, '&')
                                  + 3 * (CountChar(s, '<') + CountChar(s, '>'))
                                  + 5 * (CountChar(s, '"') + CountChar(s, '\''))
  {
    if |s| > 0 {
      EscapeMapLength(s[1..]);
    }
  }

  datatype TestCase = TestCase(input: string, expected: string)

  /** The vectors of `testXmlEscape`. */
  const Vectors: seq<TestCase> := [
    TestCase("Arts " + "&" + " Culture", "Arts " + "&amp;" + " Culture"),
    TestCase("Text with " + "\"" + "quotes" + "\"", "Text with " + "&quot;" + "quotes" + "&quot;"),
    TestCase("Text with " + "'" + "apostrophe" + "'", "Text with " + "&apos;" + "apostrophe" + "&apos;"),
    TestCase("Less " + "<" + "than" + ">", "Less " + "&lt;" + "than" + "&gt;"),
    TestCase("Multiple " + "&" + " " + "<" + " " + ">" + " " + "\"" + " " + "'" + " symbols",
             "Multiple " + "&amp;" + " " + "&lt;" + " " + "&gt;" + " " + "&quot;" + " " + "&apos;" + " symbols"),
    TestCase("https://example.com/feed?a=1" + "&" + "b=2", "https://example.com/feed?a=1" + "&amp;" + "b=2"),
    TestCase("<" + "script" + ">" + "alert(" + "\"" + "XSS" + "\"" + ")" + "<" + "/script" + ">",
             "&lt;" + "script" + "&gt;" + "alert(" + "&quot;" + "XSS" + "&quot;" + ")" + "&lt;" + "/script" + "&gt;")
  ]

  /** `testXmlEscape`: the failure messages, one per vector that does not match. */
  function TestXmlEscape(cases: seq<TestCase>): (errors: seq<string>)
    ensures |errors| <= |cases|
    ensures |errors| == 0 <==> forall i :: 0 <= i < |cases| ==> EscapeXml(cases[i].input) == cases[i].expected
  {
    if |cases| == 0 then []
    else
      var c := cases[0];
      var here := if EscapeXml(c.input) == c.expected then []
                  else ["Failed: \"" + c.input + "\" -> Expected: \"" + c.expected + "\", Got: \"" + EscapeXml(c.input) + "\""];
      here + TestXmlEscape(cases[1..])
  }

  /** Escaping a prefix extends to one more character. */
  lemma StepChar(done: string, escaped: string, x: char)
    requires EscapeXml(done) == escaped
    ensures EscapeXml(done + [x]) == escaped + EscapeChar(x)
  {
    EscapeXmlAppend(done, [x]);
    EscapeXmlChar(x);
  }

  /** Escaping a prefix extends to one more clean run. */
  lemma StepClean(done: string, escaped: string, run: string)
    requires EscapeXml(done) == escaped
    requires Clean(run)
    ensures EscapeXml(done + run) == escaped + run
  {
    EscapeXmlAppend(done, run);
    EscapeClean(run);
  }

  /** A clean run, one character, a clean run. */
  lemma EscapesOne(p0: string, a: char, p2: string)
    requires Clean(p0) && Clean(p2)
    ensures EscapeXml(p0 + [a] + p2) == p0 + EscapeChar(a) + p2
  {
    EscapeClean(p0);
    StepChar(p0, p0, a);
    StepClean(p0 + [a], p0 + EscapeChar(a), p2);
  }

  /** A clean run, one character, a clean run, one character. */
  lemma EscapesTwo(p0: string, a: char, p2: string, b: char)
    requires Clean(p0) && Clean(p2)
    ensures EscapeXml(p0 + [a] + p2 + [b]) == p0 + EscapeChar(a) + p2 + EscapeChar(b)
  {
    EscapesOne(p0, a, p2);
    StepChar(p0 + [a] + p2, p0 + EscapeChar(a) + p2, b);
  }

  lemma Runs0()
    ensures Clean("Arts ") && Clean(" Culture")
  {
  }

  lemma Vector0()
    ensures EscapeXml(Vectors[0].input) == Vectors[0].expected
  {
    Runs0();
    EscapesOne("Arts ", '&', " Culture");
  }

  lemma Runs1()
    ensures Clean("Text with ") && Clean("quotes")
  {
  }

  lemma Vector1()
    ensures EscapeXml(Vectors[1].input) == Vectors[1].expected
  {
    Runs1();
    EscapesTwo("Text with ", '"', "quotes", '"');
  }

  lemma Runs2()
    ensures Clean("Text with ") && Clean("apostrophe")
  {
  }

  lemma Vector2()
    ensures EscapeXml(Vectors[2].input) == Vectors[2].expected
  {
    Runs2();
    EscapesTwo("Text with ", '\'', "apostrophe", '\'');
  }

  lemma Runs3()
    ensures Clean("Less ") && Clean("than")
  {
  }

  lemma Vector3()
    ensures EscapeXml(Vectors[3].input) == Vectors[3].expected
  {
    Runs3();
    EscapesTwo("Less ", '<', "than", '>');
  }

  lemma EscapesPieces4(p0: string, p1: string, p2: string, p3: string, p4: string, p5: string, p6: string, p7: string, p8: string, p9: string, p10: string)
    requires Clean(p0) && p1 == "&" && Clean(p2) && p3 == "<" && Clean(p4) && p5 == ">" && Clean(p6) && p7 == "\"" && Clean(p8) && p9 == "'" && Clean(p10)
    ensures EscapeXml(p0 + p1 + p2 + p3 + p4 + p5 + p6 + p7 + p8 + p9 + p10) == p0 + "&amp;" + p2 + "&lt;" + p4 + "&gt;" + p6 + "&quot;" + p8 + "&apos;" + p10
  {
    EscapeClean(p0);
    StepChar(p0, p0, '&');
    StepClean(p0 + p1, p0 + "&amp;", p2);
    StepChar(p0 + p1 + p2, p0 + "&amp;" + p2, '<');
    StepClean(p0 + p1 + p2 + p3, p0 + "&amp;" + p2 + "&lt;", p4);
    StepChar(p0 + p1 + p2 + p3 + p4, p0 + "&amp;" + p2 + "&lt;" + p4, '>');
    StepClean(p0 + p1 + p2 + p3 + p4 + p5, p0 + "&amp;" + p2 + "&lt;" + p4 + "&gt;", p6);
    StepChar(p0 + p1 + p2 + p3 + p4 + p5 + p6, p0 + "&amp;" + p2 + "&lt;" + p4 + "&gt;" + p6, '"');
    StepClean(p0 + p1 + p2 + p3 + p4 + p5 + p6 + p7, p0 + "&amp;" + p2 + "&lt;" + p4 + "&gt;" + p6 + "&quot;", p8);
    StepChar(p0 + p1 + p2 + p3 + p4 + p5 + p6 + p7 + p8, p0 + "&amp;" + p2 + "&lt;" + p4 + "&gt;" + p6 + "&quot;" + p8, '\'');
    StepClean(p0 + p1 + p2 + p3 + p4 + p5 + p6 + p7 + p8 + p9, p0 + "&amp;" + p2 + "&lt;" + p4 + "&gt;" + p6 + "&quot;" + p8 + "&apos;", p10);
  }

  lemma Runs4()
    ensures Clean("Multiple ") && Clean(" ") && Clean(" symbols")
  {
  }

  lemma Vector4()
    ensures EscapeXml(Vectors[4].input) == Vectors[4].expected
  {
    Runs4();
    EscapesPieces4("Multiple ", "&", " ", "<", " ", ">", " ", "\"", " ", "'", " symbols");
  }

  lemma Runs5()
    ensures Clean("https://example.com/feed?a=1") && Clean("b=2")
  {
  }

  lemma Vector5()
    ensures EscapeXml(Vectors[5].input) == Vectors[5].expected
  {
    Runs5();
    EscapesOne("https://example.com/feed?a=1", '&', "b=2");
  }

  lemma EscapesPieces6(p0: string, p1: string, p2: string, p3: string, p4: string, p5: string, p6: string, p7: string, p8: string, p9: string, p10: string)
    requires p0 == "<" && Clean(p1) && p2 == ">" && Clean(p3) && p4 == "\"" && Clean(p5) && p6 == "\"" && Clean(p7) && p8 == "<" && Clean(p9) && p10 == ">"
    ensures EscapeXml(p0 + p1 + p2 + p3 + p4 + p5 + p6 + p7 + p8 + p9 + p10) == "&lt;" + p1 + "&gt;" + p3 + "&quot;" + p5 + "&quot;" + p7 + "&lt;" + p9 + "&gt;"
  {
    EscapeXmlChar('<');
    StepClean(p0, "&lt;", p1);
    StepChar(p0 + p1, "&lt;" + p1, '>');
    StepClean(p0 + p1 + p2, "&lt;" + p1 + "&gt;", p3);
    StepChar(p0 + p1 + p2 + p3, "&lt;" + p1 + "&gt;" + p3, '"');
    StepClean(p0 + p1 + p2 + p3 + p4, "&lt;" + p1 + "&gt;" + p3 + "&quot;", p5);
    StepChar(p0 + p1 + p2 + p3 + p4 + p5, "&lt;" + p1 + "&gt;" + p3 + "&quot;" + p5, '"');
    StepClean(p0 + p1 + p2 + p3 + p4 + p5 + p6, "&lt;" + p1 + "&gt;" + p3 + "&quot;" + p5 + "&quot;", p7);
    StepChar(p0 + p1 + p2 + p3 + p4 + p5 + p6 + p7, "&lt;" + p1 + "&gt;" + p3 + "&quot;" + p5 + "&quot;" + p7, '<');
    StepClean(p0 + p1 + p2 + p3 + p4 + p5 + p6 + p7 + p8, "&lt;" + p1 + "&gt;" + p3 + "&quot;" + p5 + "&quot;" + p7 + "&lt;", p9);
    StepChar(p0 + p1 + p2 + p3 + p4 + p5 + p6 + p7 + p8 + p9, "&lt;" + p1 + "&gt;" + p3 + "&quot;" + p5 + "&quot;" + p7 + "&lt;" + p9, '>');
  }

  lemma Runs6()
    ensures Clean("script") && Clean("alert(") && Clean("XSS") && Clean(")") && Clean("/script")
  {
  }

  lemma Vector6()
    ensures EscapeXml(Vectors[6].input) == Vectors[6].expected
  {
    Runs6();
    EscapesPieces6("<", "script", ">", "alert(", "\"", "XSS", "\"", ")", "<", "/script", ">");
  }

  /** Every vector passes, so the self-test reports `passed: true` and no errors. */
  lemma TestXmlEscapePasses()
    ensures TestXmlEscape(Vectors) == []
  {
    AllVectorsPass();
  }

  lemma AllVectorsPass()
    ensures forall i :: 0 <= i < |Vectors| ==> EscapeXml(Vectors[i].input) == Vectors[i].expected
  {
    forall i | 0 <= i < |Vectors| ensures EscapeXml(Vectors[i].input) == Vectors[i].expected {
      if i == 0 { Vector0(); }
      else if i == 1 { Vector1(); }
      else if i == 2 { Vector2(); }
      else if i == 3 { Vector3(); }
      else if i == 4 { Vector4(); }
      else if i == 5 { Vector5(); }
      else { Vector6(); }
    }
  }
}
