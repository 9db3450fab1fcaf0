/** The text that WebPage.toString produces, as a function of the page URL
    text and the four collections. */
module Report {
  import opened Extract

  /** The decimal digit for d, as fmt's %d writes it. */
  function Digit(d: nat): char
    requires d < 10
  {
    ('0' as int + d) as char
  }

  /** %d of a non-negative int: most significant digit first, no leading
      zeros. */
  function Decimal(n: nat): string
  {
    if n < 10 then [Digit(n)] else Decimal(n / 10) + [Digit(n % 10)]
  }

  function DigitValue(c: char): nat
  {
    if '0' <= c <= '9' then c as int - '0' as int else 0
  }

  /** Reading a string of decimal digits back as a number. */
  function DecimalValue(s: string): nat
  {
    if s == [] then 0 else DecimalValue(s[..|s| - 1]) * 10 + DigitValue(s[|s| - 1])
  }

  /** The count printed in a section header reads back as the count: it is
      a non-empty run of digits whose value is n, only "0" starts with 0. */
  lemma {:induction false} DecimalRoundTrip(n: nat)
    ensures DecimalValue(Decimal(n)) == n
    ensures |Decimal(n)| >= 1 && (Decimal(n)[0] == '0' ==> n == 0)
    ensures forall i :: 0 <= i < |Decimal(n)| ==> '0' <= Decimal(n)[i] <= '9'
  {
    if n >= 10 {
      DecimalRoundTrip(n / 10);
      var s := Decimal(n);
      assert s[..|s| - 1] == Decimal(n / 10);
    }
  }

  /** One line per entry, indented by eight spaces, in collection order. */
  function Lines(entries: seq<string>): string
  {
    if entries == [] then ""
    else Lines(entries[..|entries| - 1]) + "        " + entries[|entries| - 1] + "\n"
  }

  /** A section: a header with the collection's name and length, then its
      entries. */
  function Section(name: string, entries: seq<string>): string
  {
    "    " + name + "(" + Decimal(|entries|) + "):\n" + Lines(entries)
  }

  /** The whole page report: the URL line, then Links, Images, Style Sheets
      and Script Files, in that order. */
  function Render(urlText: string, a: Assets): string
  {
    "URL: " + urlText + "\n"
    + Section("Links", a.links)
    + Section("Images", a.images)
    + Section("Style Sheets", a.styleSheets)
    + Section("Script Files", a.scriptFiles)
  }

  function CountChar(s: string, c: char): nat
  {
    if s == [] then 0 else (if s[0] == c then 1 else 0) + CountChar(s[1..], c)
  }

  lemma {:induction false} CountCharAppend(a: string, b: string, c: char)
    ensures CountChar(a + b, c) == CountChar(a, c) + CountChar(b, c)
  {
    if a == [] {
      assert a + b == b;
    } else {
      assert (a + b)[0] == a[0] && (a + b)[1..] == a[1..] + b;
      CountCharAppend(a[1..], b, c);
    }
  }

  lemma {:induction false} CountCharAbsent(s: string, c: char)
    requires c !in s
    ensures CountChar(s, c) == 0
  {
    if s != [] {
      assert s[0] in s;
      assert forall x :: x in s[1..] ==> x in s;
      CountCharAbsent(s[1..], c);
    }
  }

  /** No entry contains a line break. */
  ghost predicate SingleLine(entries: seq<string>)
  {
    forall i :: 0 <= i < |entries| ==> '\n' !in entries[i]
  }

  lemma {:induction false} LinesCount(entries: seq<string>)
    requires SingleLine(entries)
    ensures CountChar(Lines(entries), '\n') == |entries|
  {
    if entries != [] {
      var init := entries[..|entries| - 1];
      var last := entries[|entries| - 1];
      assert SingleLine(init) by {
        forall i | 0 <= i < |init| ensures '\n' !in init[i] {
          assert init[i] == entries[i];
        }
      }
      LinesCount(init);
      CountCharAppend(Lines(init) + "        " + last, "\n", '\n');
      CountCharAppend(Lines(init) + "        ", last, '\n');
      CountCharAppend(Lines(init), "        ", '\n');
      CountCharAbsent("        ", '\n');
      CountCharAbsent(last, '\n');
    }
  }

  lemma SectionCount(name: string, entries: seq<string>)
    requires '\n' !in name && SingleLine(entries)
    ensures CountChar(Section(name, entries), '\n') == 1 + |entries|
  {
    var d := Decimal(|entries|);
    DecimalRoundTrip(|entries|);
    assert '\n' !in d;
    var head := "    " + name + "(" + d;
    assert '\n' !in head;
    CountCharAbsent(head, '\n');
    CountCharAppend(head, "):\n", '\n');
    CountCharAppend(head + "):\n", Lines(entries), '\n');
    LinesCount(entries);
    CountCharAppend("):", "\n", '\n');
    assert "):\n" == "):" + "\n";
    CountCharAbsent("):", '\n');
  }

  /** The report has the URL line, one header line per collection and one
      line per entry, and no other line. */
  lemma RenderLineCount(urlText: string, a: Assets)
    requires '\n' !in urlText
    requires SingleLine(a.links) && SingleLine(a.images) && SingleLine(a.styleSheets) && SingleLine(a.scriptFiles)
    ensures CountChar(Render(urlText, a), '\n') == 5 + |a.links| + |a.images| + |a.styleSheets| + |a.scriptFiles|
  {
    var first := "URL: " + urlText;
    assert '\n' !in first;
    CountCharAbsent(first, '\n');
    CountCharAppend(first, "\n", '\n');
    var s1 := Section("Links", a.links);
    var s2 := Section("Images", a.images);
    var s3 := Section("Style Sheets", a.styleSheets);
    var s4 := Section("Script Files", a.scriptFiles);
    SectionCount("Links", a.links);
    SectionCount("Images", a.images);
    SectionCount("Style Sheets", a.styleSheets);
    SectionCount("Script Files", a.scriptFiles);
    CountCharAppend(first + "\n", s1, '\n');
    CountCharAppend(first + "\n" + s1, s2, '\n');
    CountCharAppend(first + "\n" + s1 + s2, s3, '\n');
    CountCharAppend(first + "\n" + s1 + s2 + s3, s4, '\n');
    assert Render(urlText, a) == first + "\n" + s1 + s2 + s3 + s4;
  }
}
