/**
  `print_json`: echo the header, or re-indent it by a character scan that
  knows nothing about JSON strings. Standard output is the returned text.
 */
module Reformat {
  import opened CText

  /**
    What the prettify loop prints for one character when its counter
    `indentTab` holds the value it had before that character.
   */
  function Emit(c: char, indentTab: int): string
  {
    if c == '{' then "{\n" + Indent(indentTab + 1)
    else if c == '}' then "\n" + Indent(indentTab - 1) + "}"
    else if c == ',' then ",\n" + Indent(indentTab)
    else [c]
  }

  /**
    Reference definition of the prettify loop: each character is printed
    with the counter equal to the brace balance of the text before it.
   */
  function Pretty(s: string): string
  {
    if |s| == 0 then ""
    else Pretty(s[..|s| - 1]) + Emit(s[|s| - 1], Balance(s[..|s| - 1]))
  }

  /** Standard output of `print_json(json, prettify)`. */
  function PrintJson(json: string, prettify: bool): (r: string)
    ensures |r| > 0 && r[|r| - 1] == '\n'
    ensures !prettify && '\0' !in json ==> r == json + "\n"
    ensures CStr(json) == "" ==> r == "\n"
  {
    var t := CStr(json);
    if prettify then Pretty(t) + "\n" else t + "\n"
  }

  lemma PrettySnoc(s: string, c: char)
    ensures Pretty(s + [c]) == Pretty(s) + Emit(c, Balance(s))
  {
    assert (s + [c])[..|s|] == s;
  }

  /** Text without braces or commas is printed as it is. */
  lemma {:induction false} PrettyPassThrough(s: string, w: string)
    requires forall i :: 0 <= i < |w| ==> w[i] != '{' && w[i] != '}' && w[i] != ','
    ensures Pretty(s + w) == Pretty(s) + w
    ensures Balance(s + w) == Balance(s)
    decreases |w|
  {
    if |w| == 0 {
      assert s + w == s;
    } else {
      var init, c := w[..|w| - 1], w[|w| - 1];
      assert w == init + [c];
      assert s + w == (s + init) + [c];
      PrettyPassThrough(s, init);
      PrettySnoc(s + init, c);
      BalanceSnoc(s + init, c);
    }
  }

  /** One character's output is that character with layout around it. */
  lemma EmitPadded(c: char, indentTab: int)
    ensures Padded([c], Emit(c, indentTab))
    ensures Strip(Emit(c, indentTab)) == Strip([c])
  {
    if c == '{' {
      EmitLayoutAfter(c, indentTab + 1);
      assert Emit(c, indentTab) == [c] + ("\n" + Indent(indentTab + 1));
    } else if c == '}' {
      var w := "\n" + Indent(indentTab - 1);
      NewlineIndent(indentTab - 1);
      PaddedLayoutBefore(w, [c]);
      StripLayout(w);
      StripAppend(w, [c]);
      assert Emit(c, indentTab) == w + [c];
    } else if c == ',' {
      EmitLayoutAfter(c, indentTab);
      assert Emit(c, indentTab) == [c] + ("\n" + Indent(indentTab));
    } else {
      PaddedSame([c]);
    }
  }

  lemma EmitLayoutAfter(c: char, n: int)
    ensures Padded([c], [c] + ("\n" + Indent(n)))
    ensures Strip([c] + ("\n" + Indent(n))) == Strip([c])
  {
    var w := "\n" + Indent(n);
    NewlineIndent(n);
    PaddedLayoutAfter([c], w);
    StripLayout(w);
    StripAppend([c], w);
  }

  /**
    Prettifying only inserts spaces and newlines: every input character
    appears in the output, in its original order, and nothing else does.
   */
  lemma {:induction false} PrettyPadded(s: string)
    ensures Padded(s, Pretty(s))
  {
    if |s| == 0 {
      PaddedSame("");
    } else {
      var init, c := s[..|s| - 1], s[|s| - 1];
      assert s == init + [c];
      PrettyPadded(init);
      EmitPadded(c, Balance(init));
      PaddedAppend(init, Pretty(init), [c], Emit(c, Balance(init)));
    }
  }

  /** Removing all spaces and newlines gives the same text before and after. */
  lemma {:induction false} PrettyStrip(s: string)
    ensures Strip(Pretty(s)) == Strip(s)
  {
    if |s| > 0 {
      var init, c := s[..|s| - 1], s[|s| - 1];
      assert s == init + [c];
      PrettyStrip(init);
      EmitPadded(c, Balance(init));
      StripAppend(Pretty(init), Emit(c, Balance(init)));
      StripAppend(init, [c]);
    }
  }

  /** The prettified header keeps the header's characters, with layout added. */
  lemma PrintJsonPreserves(json: string)
    ensures Padded(CStr(json), PrintJson(json, true))
    ensures Strip(PrintJson(json, true)) == Strip(CStr(json))
  {
    var t := CStr(json);
    PrettyPadded(t);
    PrettyStrip(t);
    PaddedLayout("\n");
    PaddedAppend(t, Pretty(t), "", "\n");
    assert t + "" == t;
    StripAppend(Pretty(t), "\n");
  }

  lemma PrettyPrefix(s: string, i: int)
    requires 0 <= i < |s|
    ensures Pretty(s[..i + 1]) == Pretty(s[..i]) + Emit(s[i], Balance(s[..i]))
    ensures Balance(s[..i + 1]) == Balance(s[..i]) + Delta(s[i])
  {
    assert s[..i + 1] == s[..i] + [s[i]];
    PrettySnoc(s[..i], s[i]);
    BalanceSnoc(s[..i], s[i]);
  }

  /** `for (j = 0; j < n; j++) printf("   ")`, appended to `out`. */
  method AppendIndent(out: string, n: int) returns (r: string)
    ensures r == out + Indent(n)
  {
    r := out;
    var j := 0;
    while j < n
      invariant 0 <= j && (j <= n || j == 0)
      invariant r == out + Indent(j)
    {
      r := r + "   ";
      j := j + 1;
    }
  }

  /** One iteration of the prettify loop: print for `c`, update the counter. */
  method EmitChar(out: string, c: char, indentTab: int) returns (out': string, indentTab': int)
    ensures out' == out + Emit(c, indentTab)
    ensures indentTab' == indentTab + Delta(c)
  {
    indentTab' := indentTab;
    if c == '{' {
      out' := out + "{\n";
      indentTab' := indentTab' + 1;
      out' := AppendIndent(out', indentTab');
    } else if c == '}' {
      indentTab' := indentTab' - 1;
      out' := out + "\n";
      out' := AppendIndent(out', indentTab');
      out' := out' + "}";
    } else if c == ',' {
      out' := out + ",\n";
      out' := AppendIndent(out', indentTab');
    } else {
      out' := out + [c];
    }
  }

  /**
    The C loop of `print_json`: one pass over the characters before the NUL,
    with a counter `indentTab` that rises at `{` and falls at `}`.
   */
  method PrintJsonLoop(json: string, prettify: bool) returns (out: string)
    ensures out == PrintJson(json, prettify)
  {
    if !prettify {
      out := CStr(json) + "\n";
      return;
    }
    ghost var t := CStr(json);
    out := "";
    var indentTab := 0;
    var i := 0;
    while i < |json| && json[i] != '\0'
      invariant 0 <= i <= |t|
      invariant json[..i] == t[..i]
      invariant indentTab == Balance(t[..i])
      invariant out == Pretty(t[..i])
    {
      assert t[i] == json[i];
      PrettyPrefix(t, i);
      out, indentTab := EmitChar(out, json[i], indentTab);
      i := i + 1;
    }
    CStrEnd(json, i);
    out := out + "\n";
  }
}
