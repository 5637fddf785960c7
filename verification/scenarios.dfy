/** Whole runs on small headers, worked out from the model. */
module Scenarios {
  import opened Wrappers
  import opened CText
  import Reformat
  import Metadata
  import Cli

  const Small: string := "{\"a\":1,\"b\":2}"

  /** `stinfo model.st` on a 13-byte header echoes it with a newline. */
  lemma EchoHeader()
    ensures Cli.Run(["stinfo", "model.st"], 13, Small) == Cli.Printed(Small + "\n")
  {
    var args := ["stinfo", "model.st"];
    assert args[1..] == ["model.st"];
    assert Cli.ParseArgs(args) == Cli.Inspect(Cli.Flags(false, false, false), "model.st");
    assert Small[..13] == Small;
    SmallNoNul();
  }

  lemma PrettyOpen()
    ensures Reformat.Pretty("{") == "{\n   " && Balance("{") == 1
  {
    assert "{" == "" + ['{'];
    Reformat.PrettySnoc("", '{');
    BalanceSnoc("", '{');
    assert Indent(1) == "   ";
  }

  lemma PrettyFirstValue()
    ensures Reformat.Pretty("{\"a\":1") == "{\n   \"a\":1" && Balance("{\"a\":1") == 1
  {
    PrettyOpen();
    Reformat.PrettyPassThrough("{", "\"a\":1");
    assert "{" + "\"a\":1" == "{\"a\":1";
  }

  lemma PrettyFirstComma()
    ensures Reformat.Pretty("{\"a\":1,") == "{\n   \"a\":1,\n   " && Balance("{\"a\":1,") == 1
  {
    PrettyFirstValue();
    assert "{\"a\":1," == "{\"a\":1" + [','];
    assert "{\n   \"a\":1" + ",\n   " == "{\n   \"a\":1,\n   ";
    Reformat.PrettySnoc("{\"a\":1", ',');
    BalanceSnoc("{\"a\":1", ',');
    assert Reformat.Emit(',', 1) == ",\n   ";
  }

  lemma PrettySecondValue()
    ensures Reformat.Pretty("{\"a\":1,\"b\":2") == "{\n   \"a\":1,\n   \"b\":2"
    ensures Balance("{\"a\":1,\"b\":2") == 1
  {
    PrettyFirstComma();
    Reformat.PrettyPassThrough("{\"a\":1,", "\"b\":2");
    assert "{\"a\":1," + "\"b\":2" == "{\"a\":1,\"b\":2";
  }

  lemma SmallNoNul()
    ensures CStr(Small) == Small
  {
    assert forall i :: 0 <= i < |Small| ==> Small[i] != '\0';
  }

  lemma PrettySmallBody()
    ensures Reformat.Pretty(Small) == "{\n   \"a\":1,\n   \"b\":2\n}"
  {
    PrettySecondValue();
    assert Small == "{\"a\":1,\"b\":2" + ['}'];
    Reformat.PrettySnoc("{\"a\":1,\"b\":2", '}');
    assert Indent(0) == "";
  }

  /** The prettified form of the small header. */
  lemma PrettySmall()
    ensures Reformat.PrintJson(Small, true) == "{\n   \"a\":1,\n   \"b\":2\n}\n"
  {
    SmallNoNul();
    PrettySmallBody();
  }

  const Before: string := "{\"x\":1,"
  const Note: string := "{\"note\":\"a,b\"}"
  const After: string := ",\"y\":2}"

  /** A header whose metadata object holds a comma inside a string value. */
  const WithNote: string := Before + Metadata.Key + ":" + Note + After

  lemma WithNoteNoNul()
    ensures CStr(WithNote) == WithNote
  {
    assert forall i :: 0 <= i < |Before| ==> Before[i] != '\0';
    assert forall i :: 0 <= i < |Metadata.Key| ==> Metadata.Key[i] != '\0';
    assert forall i :: 0 <= i < |Note| ==> Note[i] != '\0';
    assert forall i :: 0 <= i < |After| ==> After[i] != '\0';
    assert '\0' !in WithNote;
  }

  lemma WithNoteNoEarlierKey()
    ensures forall j :: 0 <= j < 7 ==> !OccursAt(WithNote, Metadata.Key, j)
  {
    var key := Metadata.Key;
    assert forall i :: 0 <= i < |Before| ==> Before[i] != '_';
    forall j | 0 <= j < 7
      ensures !OccursAt(WithNote, key, j)
    {
      assert WithNote[j..j + 14][1] == WithNote[j + 1];
      if j + 1 < 7 {
        assert WithNote[j + 1] == Before[j + 1];
      } else {
        assert WithNote[j + 1] == key[0];
      }
    }
  }

  lemma WithNoteKeyAt7()
    ensures Find(CStr(WithNote), Metadata.Key) == Some(7)
  {
    WithNoteNoNul();
    WithNoteNoEarlierKey();
    assert WithNote[7..21] == Metadata.Key;
    assert OccursAt(WithNote, Metadata.Key, 7);
  }

  lemma NoteBalanced()
    ensures Balance(Metadata.Key + ":") == 0
    ensures Balance(Note) == 0
  {
    BalanceBraceFree(Metadata.Key + ":");
    var inner := "\"note\":\"a,b\"";
    BalanceBraceFree(inner);
    assert Note == "{" + inner + "}";
    BalanceAppend("{", inner);
    BalanceAppend("{" + inner, "}");
    assert "{" == "" + ['{'];
    BalanceSnoc("", '{');
    assert "}" == "" + ['}'];
    BalanceSnoc("", '}');
  }

  lemma WithNoteCloses()
    ensures Metadata.CloseIndex(WithNote[7..]) == Some(28)
  {
    var rest := WithNote[7..];
    var head := Metadata.Key + ":";
    assert rest == head + Note + After;
    assert rest[..29] == head + Note;
    NoteBalanced();
    BalanceAppend(head, Note);
    assert Metadata.ClosesAt(rest, 28);
    assert forall i :: 0 <= i < |head| ==> head[i] != '}';
    assert forall i :: 0 <= i < 13 ==> Note[i] != '}';
    forall j | 0 <= j < 28
      ensures rest[j] != '}'
    {
      if j < 15 {
        assert rest[j] == head[j];
      } else {
        assert rest[j] == Note[j - 15];
      }
    }
  }

  lemma WithNoteSpan()
    ensures Find(CStr(WithNote), Metadata.Key) == Some(7)
    ensures Metadata.FromKey(WithNote) == WithNote[7..]
    ensures Metadata.Span(WithNote[7..]) == Metadata.Key + ":" + Note
    ensures Metadata.Repeated(WithNote[7..]) == "}"
  {
    WithNoteKeyAt7();
    WithNoteNoNul();
    WithNoteCloses();
    assert WithNote[7..] == Metadata.Key + ":" + Note + After;
  }

  /**
    The metadata path copies the key and its object, the quoted comma like
    any other character, prints the balancing `}` twice, and closes the frame.
   */
  lemma MetadataAsWritten()
    ensures Metadata.PrintMetadata(WithNote, false)
      == Metadata.Opening + Metadata.Key + ":" + Note + "}" + Metadata.Ending
  {
    WithNoteSpan();
    Metadata.MetadataPlain(WithNote);
  }

  /** No key: only the message, whatever the prettify flag. */
  lemma MetadataMissing(prettify: bool)
    ensures Metadata.PrintMetadata(Small, prettify) == Metadata.NotFound
  {
    assert forall i :: 0 <= i < |Small| ==> Small[i] != '\0';
    assert CStr(Small) == Small;
  }

  /** A declared length of 2 MiB is refused before the header is looked at. */
  lemma TooLargeRefused(body: string)
    ensures Cli.Run(["stinfo", "-m", "model.st"], 2 * 1024 * 1024, body) == Cli.TooLarge
  {
    assert ["stinfo", "-m", "model.st"][1..] == ["-m", "model.st"];
  }
}
