/**
  `print_metadata`: find the first `"__metadata__"` in the header and copy
  from there while counting braces, up to the `}` that brings the count back
  to zero. As in `print_json`, quotes are not tracked, so braces and commas
  inside string values count as structure.
 */
module Metadata {
  import opened Wrappers
  import opened CText
  import Reformat

  /** The needle handed to `strstr`, quotes included. */
  const Key: string := "\"__metadata__\""

  const NotFound: string := "No __metadata__ object found.\n"

  /** The frame printed before the copied text. */
  const Opening: string := "{\n   "

  /** The frame printed after the copied text. */
  const Ending: string := "\n}\n"

  /** The `}` at index `k` brings the running brace count of `s` back to 0. */
  predicate ClosesAt(s: string, k: int)
    requires 0 <= k < |s|
  {
    s[k] == '}' && Balance(s[..k + 1]) == 0
  }

  function CloseFrom(s: string, k: nat): (r: Option<nat>)
    requires k <= |s|
    ensures r.Some? ==> k <= r.value < |s| && ClosesAt(s, r.value)
    ensures r.Some? ==> forall j :: k <= j < r.value ==> !ClosesAt(s, j)
    ensures r.None? ==> forall j :: k <= j < |s| ==> !ClosesAt(s, j)
    decreases |s| - k
  {
    if k == |s| then None
    else if ClosesAt(s, k) then Some(k)
    else CloseFrom(s, k + 1)
  }

  /** Where the copy loop stops: the first `}` that returns the count to 0. */
  function CloseIndex(s: string): (r: Option<nat>)
    ensures r.Some? ==> r.value < |s| && ClosesAt(s, r.value)
    ensures r.Some? ==> forall j :: 0 <= j < r.value ==> !ClosesAt(s, j)
    ensures r.None? ==> forall j :: 0 <= j < |s| ==> !ClosesAt(s, j)
  {
    CloseFrom(s, 0)
  }

  /**
    What the copy loop prints for a character that does not end the copy,
    given the brace count before it. The character itself always comes
    first; in prettify mode the counter `indentTab` equals `1 + braces`.
   */
  function Step(c: char, braces: int, prettify: bool): string
  {
    var indentTab := 1 + braces;
    [c] + (
      if !prettify then ""
      else if c == '{' then "\n" + Indent(indentTab + 1)
      else if c == '}' then "\n" + Indent(indentTab - 1)
      else if c == ',' then ",\n" + Indent(indentTab)
      else "")
  }

  /** What the copy loop prints for the `}` that ends the copy. */
  function Closing(prettify: bool): string
  {
    "}" + (if prettify then "\n   " else "") + "}"
  }

  /** Reference definition of the copy of `s`, none of whose characters ends it. */
  function Copy(s: string, prettify: bool): string
  {
    if |s| == 0 then ""
    else Copy(s[..|s| - 1], prettify) + Step(s[|s| - 1], Balance(s[..|s| - 1]), prettify)
  }

  /** The copy loop over the text that starts at the key. */
  function Scan(rest: string, prettify: bool): string
  {
    match CloseIndex(rest)
    case Some(k) => Copy(rest[..k], prettify) + Closing(prettify)
    case None => Copy(rest, prettify)
  }

  /** Standard output of `print_metadata(json, prettify)`. */
  function PrintMetadata(json: string, prettify: bool): (r: string)
    ensures Find(CStr(json), Key).None? <==> r == NotFound
    ensures Find(CStr(json), Key).Some? ==>
      Opening <= r && |r| >= |Opening| + |Ending| && r[|r| - |Ending|..] == Ending
  {
    var t := CStr(json);
    match Find(t, Key)
    case None => NotFound
    case Some(i) =>
      var r := Opening + Scan(t[i..], prettify) + Ending;
      assert r[0] == '{' != NotFound[0];
      r
  }

  lemma CopySnoc(s: string, c: char, prettify: bool)
    ensures Copy(s + [c], prettify) == Copy(s, prettify) + Step(c, Balance(s), prettify)
  {
    assert (s + [c])[..|s|] == s;
  }

  lemma CopyPrefix(s: string, i: int, prettify: bool)
    requires 0 <= i < |s|
    ensures Copy(s[..i + 1], prettify) == Copy(s[..i], prettify) + Step(s[i], Balance(s[..i]), prettify)
    ensures Balance(s[..i + 1]) == Balance(s[..i]) + Delta(s[i])
  {
    assert s[..i + 1] == s[..i] + [s[i]];
    CopySnoc(s[..i], s[i], prettify);
    BalanceSnoc(s[..i], s[i]);
  }

  /** Without prettify the copy loop prints each character once, unchanged. */
  lemma {:induction false} CopyPlain(s: string)
    ensures Copy(s, false) == s
  {
    if |s| > 0 {
      var init := s[..|s| - 1];
      assert s == init + [s[|s| - 1]];
      CopyPlain(init);
    }
  }

  /** The text the copy loop consumes: up to the ending `}` if any, else all. */
  function Span(rest: string): (r: string)
    ensures r <= rest
    ensures CloseIndex(rest).Some? ==> |r| == CloseIndex(rest).value + 1 && r[|r| - 1] == '}'
    ensures CloseIndex(rest).None? ==> r == rest
  {
    match CloseIndex(rest)
    case Some(k) => rest[..k + 1]
    case None => rest
  }

  /** The `}` printed a second time when the copy ends at a balancing `}`. */
  function Repeated(rest: string): string
  {
    if CloseIndex(rest).Some? then "}" else ""
  }

  /** The header from the first occurrence of the key onward. */
  function FromKey(json: string): string
    requires Find(CStr(json), Key).Some?
  {
    CStr(json)[Find(CStr(json), Key).value..]
  }

  /** When the key is found the output is the frame around the copy loop's output. */
  lemma MetadataFramed(json: string, prettify: bool)
    requires Find(CStr(json), Key).Some?
    ensures PrintMetadata(json, prettify) == Opening + Scan(FromKey(json), prettify) + Ending
  {
  }

  lemma ScanPlain(rest: string)
    ensures Scan(rest, false) == Span(rest) + Repeated(rest)
  {
    match CloseIndex(rest)
    case Some(k) =>
      CopyPlain(rest[..k]);
      assert rest[..k + 1] == rest[..k] + "}";
    case None =>
      CopyPlain(rest);
  }

  /**
    Without prettify, the output is the frame around the header from the key
    onward: cut just after the first `}` that balances the braces, with a
    second `}` printed after it; or, if there is no such `}`, the whole rest.
   */
  lemma MetadataPlain(json: string)
    ensures Find(CStr(json), Key).Some? ==>
      PrintMetadata(json, false) == Opening + (Span(FromKey(json)) + Repeated(FromKey(json))) + Ending
  {
    if Find(CStr(json), Key).Some? {
      var rest := FromKey(json);
      ScanPlain(rest);
      MetadataFramed(json, false);
    }
  }

  /** Each comma of `s` written twice, as prettify mode prints it. */
  function DupCommas(s: string): string
  {
    if |s| == 0 then ""
    else DupCommas(s[..|s| - 1]) + (if s[|s| - 1] == ',' then ",," else [s[|s| - 1]])
  }

  lemma DupCommasSnoc(s: string, c: char)
    ensures DupCommas(s + [c]) == DupCommas(s) + (if c == ',' then ",," else [c])
  {
    assert (s + [c])[..|s|] == s;
  }

  lemma StepPadded(c: char, braces: int)
    ensures Padded(if c == ',' then ",," else [c], Step(c, braces, true))
  {
    var indentTab := 1 + braces;
    if c == '{' {
      Reformat.EmitLayoutAfter(c, indentTab + 1);
      assert Step(c, braces, true) == [c] + ("\n" + Indent(indentTab + 1));
    } else if c == '}' {
      Reformat.EmitLayoutAfter(c, indentTab - 1);
      assert Step(c, braces, true) == [c] + ("\n" + Indent(indentTab - 1));
    } else if c == ',' {
      CommaStep(braces);
    } else {
      PaddedSame([c]);
      assert [c] + "" == [c];
    }
  }

  lemma CommaStep(braces: int)
    ensures Padded(",,", Step(',', braces, true))
  {
    var w := "\n" + Indent(1 + braces);
    NewlineIndent(1 + braces);
    PaddedLayoutAfter(",,", w);
    assert Step(',', braces, true) == ",," + w;
  }

  /**
    In prettify mode the copy is the copied text with every comma doubled
    and only spaces and newlines added.
   */
  lemma {:induction false} CopyPrettyPadded(s: string)
    ensures Padded(DupCommas(s), Copy(s, true))
  {
    if |s| == 0 {
      PaddedSame("");
    } else {
      var init, c := s[..|s| - 1], s[|s| - 1];
      assert s == init + [c];
      CopyPrettyPadded(init);
      StepPadded(c, Balance(init));
      DupCommasSnoc(init, c);
      PaddedAppend(DupCommas(init), Copy(init, true),
        if c == ',' then ",," else [c], Step(c, Balance(init), true));
    }
  }

  lemma OpeningPadded()
    ensures Padded("{", Opening)
  {
    assert Padding("{", Opening, [0]);
  }

  lemma EndingPadded()
    ensures Padded("}", Ending)
  {
    assert Padding("}", Ending, [1]);
  }

  lemma ClosingPadded()
    ensures Padded("}}", Closing(true))
  {
    assert Padding("}}", Closing(true), [0, 5]);
  }

  lemma {:induction false} ScanPrettyPadded(rest: string)
    ensures Padded(DupCommas(Span(rest)) + Repeated(rest), Scan(rest, true))
  {
    match CloseIndex(rest)
    case Some(k) =>
      var init := rest[..k];
      ClosingPadded();
      CopyPrettyPadded(init);
      PaddedAppend(DupCommas(init), Copy(init, true), "}}", Closing(true));
      assert Span(rest) == init + ['}'];
      DupCommasSnoc(init, '}');
      assert DupCommas(Span(rest)) + Repeated(rest) == DupCommas(init) + "}}";
      assert Scan(rest, true) == Copy(init, true) + Closing(true);
    case None =>
      CopyPrettyPadded(rest);
      assert DupCommas(rest) + "" == DupCommas(rest);
  }

  /** Putting the frame around a padded text keeps it padded. */
  lemma FramedPadded(a: string, b: string)
    requires Padded(a, b)
    ensures Padded("{" + a + "}", Opening + b + Ending)
  {
    OpeningPadded();
    EndingPadded();
    PaddedAppend("{", Opening, a, b);
    PaddedAppend("{" + a, Opening + b, "}", Ending);
  }

  /**
    In prettify mode, apart from inserted spaces and newlines, the output is
    `{`, the copied text with commas doubled (the ending `}` included), a
    second `}` when the copy ended at a balancing `}`, and the frame's `}`.
   */
  lemma MetadataPrettyPadded(json: string)
    requires Find(CStr(json), Key).Some?
    ensures Padded("{" + (DupCommas(Span(FromKey(json))) + Repeated(FromKey(json))) + "}",
      PrintMetadata(json, true))
  {
    var rest := FromKey(json);
    var a := DupCommas(Span(rest)) + Repeated(rest);
    ScanPrettyPadded(rest);
    FramedPadded(a, Scan(rest, true));
    MetadataFramed(json, true);
  }

  /** One iteration of the copy loop; `stop` is the C loop's `break`. */
  method CopyChar(out: string, c: char, braces: int, indentTab: int, prettify: bool)
    returns (out': string, braces': int, indentTab': int, stop: bool)
    requires prettify ==> indentTab == 1 + braces
    ensures braces' == braces + Delta(c)
    ensures stop <==> c == '}' && braces' == 0
    ensures stop ==> out' == out + Closing(prettify)
    ensures !stop ==> out' == out + Step(c, braces, prettify)
    ensures !stop && prettify ==> indentTab' == 1 + braces'
    ensures !stop && !prettify ==> indentTab' == indentTab
  {
    out', braces', indentTab', stop := out + [c], braces, indentTab, false;
    if c == '{' {
      braces' := braces' + 1;
      if prettify {
        out' := out' + "\n";
        indentTab' := indentTab' + 1;
        out' := Reformat.AppendIndent(out', indentTab');
      }
    } else if c == '}' {
      braces' := braces' - 1;
      if braces' == 0 {
        if prettify {
          out' := out' + "\n   ";
        }
        out' := out' + "}";
        stop := true;
        return;
      }
      if prettify {
        out' := out' + "\n";
        indentTab' := indentTab' - 1;
        out' := Reformat.AppendIndent(out', indentTab');
      }
    } else if c == ',' && prettify {
      out' := out' + ",\n";
      out' := Reformat.AppendIndent(out', indentTab');
    }
  }

  lemma ScanClosed(rest: string, i: int, prettify: bool)
    requires 0 <= i < |rest| && ClosesAt(rest, i)
    requires forall j :: 0 <= j < i ==> !ClosesAt(rest, j)
    ensures Scan(rest, prettify) == Copy(rest[..i], prettify) + Closing(prettify)
  {
    assert CloseIndex(rest) == Some(i);
  }

  lemma ScanOpen(rest: string, prettify: bool)
    requires forall j :: 0 <= j < |rest| ==> !ClosesAt(rest, j)
    ensures Scan(rest, prettify) == Copy(rest, prettify)
  {
    assert rest[..|rest|] == rest;
  }

  /** What one iteration of the copy loop establishes about the text read so far. */
  lemma CopyAdvance(rest: string, i: int, prettify: bool, braces: int, braces': int, stop: bool)
    requires 0 <= i < |rest| && braces == Balance(rest[..i])
    requires braces' == braces + Delta(rest[i])
    requires stop <==> rest[i] == '}' && braces' == 0
    requires forall j :: 0 <= j < i ==> !ClosesAt(rest, j)
    ensures braces' == Balance(rest[..i + 1])
    ensures Copy(rest[..i + 1], prettify) == Copy(rest[..i], prettify) + Step(rest[i], braces, prettify)
    ensures stop ==> Scan(rest, prettify) == Copy(rest[..i], prettify) + Closing(prettify)
    ensures !stop ==> forall j :: 0 <= j < i + 1 ==> !ClosesAt(rest, j)
  {
    CopyPrefix(rest, i, prettify);
    if stop {
      ScanClosed(rest, i, prettify);
    }
  }

  /**
    The `while` loop of `print_metadata`, run from index `start` of the
    header: it copies until the balancing `}` or the NUL, with counters
    `braces` and `indentTab`.
   */
  method CopyLoop(json: string, start: nat, prettify: bool) returns (out: string)
    requires start <= |CStr(json)|
    ensures out == Scan(CStr(json)[start..], prettify)
  {
    ghost var t := CStr(json);
    ghost var rest := t[start..];
    out := "";
    var braces := 0;
    var indentTab := 1;
    var i := 0;
    while start + i < |json| && json[start + i] != '\0'
      invariant start + i <= |t|
      invariant braces == Balance(rest[..i])
      invariant prettify ==> indentTab == 1 + braces
      invariant forall j :: 0 <= j < i ==> !ClosesAt(rest, j)
      invariant out == Copy(rest[..i], prettify)
    {
      var c := json[start + i];
      assert c == rest[i];
      ghost var before := braces;
      var stop;
      out, braces, indentTab, stop := CopyChar(out, c, braces, indentTab, prettify);
      CopyAdvance(rest, i, prettify, before, braces, stop);
      if stop {
        return;
      }
      i := i + 1;
    }
    CStrEnd(json, start + i);
    assert rest[..i] == rest;
    ScanOpen(rest, prettify);
  }

  /** The C body of `print_metadata`: `strstr`, the frame, the copy loop. */
  method PrintMetadataLoop(json: string, prettify: bool) returns (out: string)
    ensures out == PrintMetadata(json, prettify)
  {
    var found := Find(CStr(json), Key);
    if found.None? {
      out := NotFound;
      return;
    }
    var body := CopyLoop(json, found.value, prettify);
    out := Opening + body + Ending;
  }
}
