/** The string-list printer and parser of pkg/beta/beta.go. */
module ListCodec {
  import opened GoStrings

  // ------------------------------------------------------------- specifications

  /** `strings.ReplaceAll(s, "\"", "\\\"")`. */
  function Escape(s: string): string {
    if s == "" then ""
    else (if s[0] == '"' then "\\\"" else [s[0]]) + Escape(s[1..])
  }

  function Quote(s: string): string {
    "\"" + Escape(s) + "\""
  }

  function Quotes(ss: seq<string>): (parts: seq<string>)
    ensures |parts| == |ss|
    ensures forall i :: 0 <= i < |ss| ==> parts[i] == Quote(ss[i])
  {
    if ss == [] then [] else Quotes(ss[..|ss| - 1]) + [Quote(ss[|ss| - 1])]
  }

  /** `strings.Join(parts, ",")`. */
  function Join(parts: seq<string>): string {
    if parts == [] then "" else if |parts| == 1 then parts[0] else parts[0] + "," + Join(parts[1..])
  }

  /** `strings.Split(s, ",")`: the pieces between commas, at least one. */
  function Split(s: string): (parts: seq<string>)
    ensures |parts| > 0
  {
    if s == "" then [""]
    else
      var rest := Split(s[1..]);
      if s[0] == ',' then [""] + rest else [[s[0]] + rest[0]] + rest[1..]
  }

  function Print(ss: seq<string>): string {
    if ss == [] then "[]" else "[" + Join(Quotes(ss)) + "]"
  }

  function TrimPrefix(s: string, p: char): string {
    if |s| > 0 && s[0] == p then s[1..] else s
  }

  function TrimSuffix(s: string, p: char): string {
    if |s| > 0 && s[|s| - 1] == p then s[..|s| - 1] else s
  }

  /** One list element as the parser reads it. */
  function Clean(part: string): string {
    Trim(TrimSpace(part), DoubleQuote)
  }

  function CleanAll(parts: seq<string>): seq<string> {
    seq(|parts|, i requires 0 <= i < |parts| => Clean(parts[i]))
  }

  /** The elements that are not empty, in order. */
  function NonEmpty(xs: seq<string>): seq<string> {
    if xs == [] then []
    else NonEmpty(xs[..|xs| - 1]) + (if xs[|xs| - 1] != "" then [xs[|xs| - 1]] else [])
  }

  function Parse(text: string): seq<string> {
    var s := TrimSpace(text);
    if s == "" || s == "[]" || s == "null" then []
    else
      var inner := TrimSuffix(TrimPrefix(s, '['), ']');
      if inner == "" then [] else NonEmpty(CleanAll(Split(inner)))
  }

  // -------------------------------------------------------------------- methods

  method MarshalStringSlice(ss: seq<string>) returns (text: string)
    ensures text == Print(ss)
  {
    if |ss| == 0 {
      return "[]";
    }
    var parts := [];
    for i := 0 to |ss|
      invariant parts == Quotes(ss[..i])
    {
      assert ss[..i + 1][..i] == ss[..i];
      parts := parts + ["\"" + Escape(ss[i]) + "\""];
    }
    assert ss[..|ss|] == ss;
    return "[" + Join(parts) + "]";
  }

  method UnmarshalStringSlice(text: string) returns (result: seq<string>)
    ensures result == Parse(text)
  {
    var s := TrimSpace(text);
    if s == "" || s == "[]" || s == "null" {
      return [];
    }
    s := TrimPrefix(s, '[');
    s := TrimSuffix(s, ']');
    if s == "" {
      return [];
    }
    var parts := Split(s);
    result := [];
    for i := 0 to |parts|
      invariant result == NonEmpty(CleanAll(parts[..i]))
    {
      assert CleanAll(parts[..i + 1])[..i] == CleanAll(parts[..i]);
      var p := TrimSpace(parts[i]);
      p := Trim(p, DoubleQuote);
      if p != "" {
        result := result + [p];
      }
    }
    assert parts[..|parts|] == parts;
  }

  // --------------------------------------------------------- splitting and joining

  lemma {:induction false} SplitAtComma(a: string, b: string)
    requires ',' !in a
    ensures Split(a + "," + b) == [a] + Split(b)
    decreases |a|
  {
    var s := a + "," + b;
    if a == "" {
      assert s[1..] == b;
    } else {
      assert s[1..] == a[1..] + "," + b;
      SplitAtComma(a[1..], b);
      assert [a[0]] + a[1..] == a;
    }
  }

  lemma {:induction false} SplitWhole(a: string)
    requires ',' !in a
    ensures Split(a) == [a]
    decreases |a|
  {
    if a != "" {
      SplitWhole(a[1..]);
      assert [a[0]] + a[1..] == a;
    }
  }

  lemma {:induction false} SplitUndoesJoin(parts: seq<string>)
    requires parts != [] && forall p <- parts :: ',' !in p
    ensures Split(Join(parts)) == parts
    decreases |parts|
  {
    if |parts| == 1 {
      SplitWhole(parts[0]);
    } else {
      SplitUndoesJoin(parts[1..]);
      SplitAtComma(parts[0], Join(parts[1..]));
    }
  }

  lemma {:induction false} SplitHasNoCommas(s: string)
    ensures forall p <- Split(s) :: ',' !in p
    decreases |s|
  {
    if s != "" {
      SplitHasNoCommas(s[1..]);
      var rest := Split(s[1..]);
      assert rest[0] in rest;
      forall p | p in Split(s) ensures ',' !in p {
        if p !in rest && s[0] != ',' { assert p == [s[0]] + rest[0]; }
      }
    }
  }

  // ------------------------------------------------------------------- elements

  lemma {:induction false} EscapeFacts(s: string)
    ensures var e := Escape(s);
            && |e| >= |s| && (|e| == |s| <==> '"' !in s)
            && (s != "" ==> e != "" && e[0] != '"' && e[|e| - 1] == s[|s| - 1])
            && (s != "" && s[|s| - 1] == '"' ==> |e| >= 2 && e[|e| - 2] == '\\')
            && ('"' !in s ==> e == s)
            && (',' in e <==> ',' in s)
    decreases |s|
  {
    if s != "" {
      EscapeFacts(s[1..]);
      assert s == [s[0]] + s[1..];
    }
  }

  lemma {:induction false} TrimmedLenStep(s: string, k: Cutset, c: char)
    requires In(k, c)
    ensures TrimmedLen(s + [c], k) == TrimmedLen(s, k)
  {
    assert (s + [c])[..|s|] == s;
  }

  lemma QuotedClean(s: string)
    requires s != ""
    ensures Clean(Quote(s)) == Escape(s)[..TrimmedLen(Escape(s), DoubleQuote)]
  {
    var e, q := Escape(s), Quote(s);
    EscapeFacts(s);
    TrimKeeps(q, UnicodeSpace);
    assert TrimSpace(q) == q;
    assert q[1..] == e + ['"'];
    assert LeadingLen(q[1..], DoubleQuote) == 0;
    assert LeadingLen(q, DoubleQuote) == 1;
    TrimmedLenStep(e, DoubleQuote, '"');
  }

  lemma TrimmedEscape(s: string)
    requires s != ""
    ensures var e := Escape(s);
            TrimmedLen(e, DoubleQuote) == if s[|s| - 1] == '"' then |e| - 1 else |e|
  {
    var e := Escape(s);
    EscapeFacts(s);
    if s[|s| - 1] == '"' {
      TrimmedLenStep(e[..|e| - 1], DoubleQuote, '"');
      assert e == e[..|e| - 1] + ['"'];
    }
  }

  /** The parser reads back a printed element exactly when it holds no double quote. */
  lemma ElementRoundTrip(s: string)
    requires s != ""
    ensures Clean(Quote(s)) == s <==> '"' !in s
  {
    var e := Escape(s);
    EscapeFacts(s);
    QuotedClean(s);
    TrimmedEscape(s);
    if s[|s| - 1] == '"' {
      assert e[..|e| - 1][|e| - 2] == '\\';
    } else {
      assert e[..|e|] == e;
    }
  }

  lemma TrimIsSubstring(s: string, k: Cutset)
    ensures forall c <- Trim(s, k) :: c in s
  {
  }

  predicate Separable(ss: seq<string>) {
    forall i :: 0 <= i < |ss| ==> ss[i] != "" && ',' !in ss[i]
  }

  predicate Unquoted(ss: seq<string>) {
    forall i :: 0 <= i < |ss| ==> '"' !in ss[i]
  }

  /** Only lists without empty elements survive, and they survive whole. */
  lemma {:induction false} NonEmptyShape(xs: seq<string>)
    ensures |NonEmpty(xs)| <= |xs|
    ensures forall r <- NonEmpty(xs) :: r != "" && r in xs
    ensures "" !in xs <==> NonEmpty(xs) == xs
    decreases |xs|
  {
    if xs != [] {
      var front := xs[..|xs| - 1];
      NonEmptyShape(front);
      assert xs == front + [xs[|xs| - 1]];
      if NonEmpty(xs) == xs {
        assert NonEmpty(xs)[|xs| - 1] in NonEmpty(xs);
        assert NonEmpty(xs)[..|xs| - 1] == front;
      }
    }
  }

  lemma NonEmptyEquals(xs: seq<string>, ss: seq<string>)
    requires |xs| == |ss| && "" !in ss
    ensures NonEmpty(xs) == ss <==> xs == ss
  {
    NonEmptyLength(xs);
    NonEmptyShape(xs);
  }

  lemma {:induction false} NonEmptyLength(xs: seq<string>)
    ensures |NonEmpty(xs)| == |xs| ==> NonEmpty(xs) == xs
    decreases |xs|
  {
    if xs != [] {
      NonEmptyShape(xs[..|xs| - 1]);
      NonEmptyLength(xs[..|xs| - 1]);
    }
  }

  /** Printed elements, cleaned again, are the elements exactly when no quote occurs. */
  lemma QuotesRoundTrip(ss: seq<string>)
    requires Separable(ss)
    ensures CleanAll(Quotes(ss)) == ss <==> Unquoted(ss)
  {
    var xs := CleanAll(Quotes(ss));
    forall i | 0 <= i < |ss| ensures xs[i] == ss[i] <==> '"' !in ss[i] {
      ElementRoundTrip(ss[i]);
    }
  }

  lemma QuotesHaveNoCommas(ss: seq<string>)
    requires Separable(ss)
    ensures forall p <- Quotes(ss) :: ',' !in p
  {
    forall p | p in Quotes(ss) ensures ',' !in p {
      var i :| 0 <= i < |ss| && Quotes(ss)[i] == p;
      EscapeFacts(ss[i]);
    }
  }

  // ----------------------------------------------------------------- round trip

  /** The parser hands the printed elements, joined, to `Split`. */
  lemma ParsePrint(ss: seq<string>)
    requires ss != []
    ensures Parse(Print(ss)) == NonEmpty(CleanAll(Split(Join(Quotes(ss)))))
  {
    BracketsComeOff(Join(Quotes(ss)));
  }

  lemma BracketsComeOff(inner: string)
    ensures TrimSuffix(TrimPrefix(TrimSpace("[" + inner + "]"), '['), ']') == inner
  {
    var text := "[" + inner + "]";
    TrimKeeps(text, UnicodeSpace);
    assert text[1..] == inner + "]";
    assert (inner + "]")[..|inner|] == inner;
  }

  /** What the parser returns is always separable, so no other list can be read back. */
  lemma ParseIsSeparable(text: string)
    ensures Separable(Parse(text))
  {
    var s := TrimSpace(text);
    var inner := TrimSuffix(TrimPrefix(s, '['), ']');
    SplitHasNoCommas(inner);
    CleanedIsSeparable(Split(inner));
  }

  lemma CleanedIsSeparable(parts: seq<string>)
    requires forall p <- parts :: ',' !in p
    ensures Separable(NonEmpty(CleanAll(parts)))
  {
    var xs := CleanAll(parts);
    forall i | 0 <= i < |xs| ensures ',' !in xs[i] {
      assert parts[i] in parts;
      TrimIsSubstring(parts[i], UnicodeSpace);
      TrimIsSubstring(TrimSpace(parts[i]), DoubleQuote);
    }
    NonEmptyShape(xs);
    forall i | 0 <= i < |NonEmpty(xs)| ensures NonEmpty(xs)[i] != "" && ',' !in NonEmpty(xs)[i] {
      assert NonEmpty(xs)[i] in xs;
    }
  }

  lemma SeparableRoundTrip(ss: seq<string>)
    requires ss != [] && Separable(ss)
    ensures Parse(Print(ss)) == NonEmpty(CleanAll(Quotes(ss)))
  {
    ParsePrint(ss);
    QuotesHaveNoCommas(ss);
    SplitUndoesJoin(Quotes(ss));
  }

  /** Printing then parsing gives the list back if and only if every element is non-empty
      and holds no comma and no double quote. Brackets, blanks and backslashes are fine. */
  lemma RoundTripIff(ss: seq<string>)
    ensures Parse(Print(ss)) == ss <==> Separable(ss) && Unquoted(ss)
  {
    ParseIsSeparable(Print(ss));
    if ss == [] {
      TrimKeeps("[]", UnicodeSpace);
    } else if Separable(ss) {
      SeparableRoundTrip(ss);
      NonEmptyEquals(CleanAll(Quotes(ss)), ss);
      QuotesRoundTrip(ss);
    }
  }

  // ---------------------------------------------------------------- what is printed

  lemma {:induction false} JoinOneMore(parts: seq<string>, part: string)
    ensures Join(parts + [part]) == if parts == [] then part else Join(parts) + "," + part
    decreases |parts|
  {
    if parts == [] {
      assert parts + [part] == [part];
    } else {
      assert (parts + [part])[1..] == parts[1..] + [part];
      JoinOneMore(parts[1..], part);
    }
  }

  lemma {:induction false} EscapeOneMore(s: string, c: char)
    ensures Escape(s + [c]) == Escape(s) + (if c == '"' then "\\\"" else [c])
    decreases |s|
  {
    if s == "" {
      assert s + [c] == [c] && [c][1..] == "" && Escape("") == "";
    } else {
      assert (s + [c])[1..] == s[1..] + [c];
      EscapeOneMore(s[1..], c);
    }
  }

  /** The text of the empty list, and of a list of one: the element between quotes. */
  lemma PrintOne(s: string)
    ensures Print([]) == "[]" && Print([s]) == "[\"" + Escape(s) + "\"]"
  {
    assert [s][..0] == [] && Quotes([]) == [];
    assert Quotes([s]) == [Quote(s)];
  }

  /** One element more: a comma, and the element between quotes. */
  lemma PrintOneMore(ss: seq<string>, s: string)
    requires ss != []
    ensures |Print(ss)| > 0
    ensures Print(ss + [s]) == Print(ss)[..|Print(ss)| - 1] + (",\"" + Escape(s) + "\"]")
  {
    assert (ss + [s])[..|ss|] == ss;
    JoinOneMore(Quotes(ss), Quote(s));
    var j := Join(Quotes(ss));
    assert Print(ss) == "[" + j + "]" && ("[" + j + "]")[..|j| + 1] == "[" + j;
    Brackets(j, Escape(s));
  }

  lemma Brackets(j: string, e: string)
    ensures "[" + (j + "," + ("\"" + e + "\"")) + "]" == ("[" + j) + (",\"" + e + "\"]")
  {
  }

  // ------------------------------------------------------------- what can be read

  /** A list element as someone may write it: blanks around it, and quotes or none. */
  datatype Written = Written(lead: string, quoted: bool, body: string, trail: string) {
    function Text(): string {
      lead + (if quoted then "\"" + body + "\"" else body) + trail
    }

    /** No comma and no quote at its ends, and without quotes around it no blank there. */
    ghost predicate IsClear() {
      && AllIn(UnicodeSpace, lead) && AllIn(UnicodeSpace, trail) && ',' !in body
      && (body != "" ==> body[0] != '"' && body[|body| - 1] != '"')
      && (body != "" && !quoted ==> !IsSpace(body[0]) && !IsSpace(body[|body| - 1]))
    }
  }

  function TextsOf(ws: seq<Written>): (parts: seq<string>)
    ensures |parts| == |ws|
  {
    seq(|ws|, i requires 0 <= i < |ws| => ws[i].Text())
  }

  /** The elements that are not empty. */
  function Bodies(ws: seq<Written>): seq<string> {
    if ws == [] then []
    else Bodies(ws[..|ws| - 1]) + (if ws[|ws| - 1].body != "" then [ws[|ws| - 1].body] else [])
  }

  lemma CleanReads(w: Written)
    requires w.IsClear()
    ensures Clean(w.Text()) == w.body
  {
    if w.quoted {
      var q := "\"" + w.body + "\"";
      TrimPadded(w.lead, q, w.trail, UnicodeSpace);
      TrimPadded("\"", w.body, "\"", DoubleQuote);
    } else {
      TrimPadded(w.lead, w.body, w.trail, UnicodeSpace);
      TrimPadded("", w.body, "", DoubleQuote);
      assert "" + w.body + "" == w.body;
    }
  }

  lemma TextHasNoComma(w: Written)
    requires w.IsClear()
    ensures ',' !in w.Text()
  {
    assert !IsSpace(',');
  }

  lemma {:induction false} NonEmptyBodies(ws: seq<Written>)
    requires forall w <- ws :: w.IsClear()
    ensures NonEmpty(CleanAll(TextsOf(ws))) == Bodies(ws)
    decreases |ws|
  {
    if ws != [] {
      var front, last := ws[..|ws| - 1], ws[|ws| - 1];
      assert last in ws && forall w <- front :: w in ws;
      NonEmptyBodies(front);
      CleanReads(last);
      var xs := CleanAll(TextsOf(ws));
      assert xs[..|xs| - 1] == CleanAll(TextsOf(front));
    }
  }

  lemma SplitReads(ws: seq<Written>)
    requires ws != [] && forall w <- ws :: w.IsClear()
    ensures NonEmpty(CleanAll(Split(Join(TextsOf(ws))))) == Bodies(ws)
  {
    forall p | p in TextsOf(ws) ensures ',' !in p {
      var i :| 0 <= i < |ws| && p == ws[i].Text();
      TextHasNoComma(ws[i]);
    }
    SplitUndoesJoin(TextsOf(ws));
    NonEmptyBodies(ws);
  }

  lemma NothingBetweenCommas()
    ensures NonEmpty(CleanAll(Split(""))) == []
  {
    TrimPadded("", "", "", UnicodeSpace);
    TrimPadded("", "", "", DoubleQuote);
    assert Clean("") == "" && CleanAll([""])[..0] == [];
  }

  lemma ReadsBracketed(before: string, inner: string, after: string)
    requires AllIn(UnicodeSpace, before) && AllIn(UnicodeSpace, after)
    ensures Parse(before + ("[" + inner + "]") + after) == NonEmpty(CleanAll(Split(inner)))
  {
    var s := "[" + inner + "]";
    TrimPadded(before, s, after, UnicodeSpace);
    BracketsTrimmed(inner);
    if inner == "" {
      NothingBetweenCommas();
    } else {
      assert |s| > 2 && s[0] == '[';
    }
  }

  lemma BracketsTrimmed(inner: string)
    ensures TrimSuffix(TrimPrefix("[" + inner + "]", '['), ']') == inner
  {
    assert ("[" + inner + "]")[1..] == inner + "]" && (inner + "]")[..|inner|] == inner;
  }

  /** What the parser reads of any list written between brackets, with blanks around: exactly the
      elements that are not empty, in order. */
  lemma ReadsElements(before: string, ws: seq<Written>, after: string)
    requires ws != [] && AllIn(UnicodeSpace, before) && AllIn(UnicodeSpace, after)
    requires forall w <- ws :: w.IsClear()
    ensures Parse(before + ("[" + Join(TextsOf(ws)) + "]") + after) == Bodies(ws)
  {
    ReadsBracketed(before, Join(TextsOf(ws)), after);
    SplitReads(ws);
  }

  /** The brackets may be missing. */
  lemma ReadsBareElements(before: string, ws: seq<Written>, after: string)
    requires ws != [] && AllIn(UnicodeSpace, before) && AllIn(UnicodeSpace, after)
    requires forall w <- ws :: w.IsClear()
    requires var inner := Join(TextsOf(ws));
             && inner != "" && inner != "null" && !IsSpace(inner[0]) && !IsSpace(inner[|inner| - 1])
             && inner[0] != '[' && inner[|inner| - 1] != ']'
    ensures Parse(before + Join(TextsOf(ws)) + after) == Bodies(ws)
  {
    TrimPadded(before, Join(TextsOf(ws)), after, UnicodeSpace);
    SplitReads(ws);
  }

  /** Blank text, empty brackets and `null` are the empty list. */
  lemma ReadsNothing(before: string, after: string)
    requires AllIn(UnicodeSpace, before) && AllIn(UnicodeSpace, after)
    ensures Parse(before + "" + after) == Parse(before + "[]" + after) == Parse(before + "null" + after) == []
  {
    TrimPadded(before, "", after, UnicodeSpace);
    TrimPadded(before, "[]", after, UnicodeSpace);
    TrimPadded(before, "null", after, UnicodeSpace);
  }
}
