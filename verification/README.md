# stinfo, modelled in Dafny

`stinfo` prints the JSON header of a safetensors file. The file starts with an
8-byte length, followed by that many bytes of JSON. The program echoes the
header, or re-indents it, or prints only the `"__metadata__"` object. It
never parses JSON. Both printers scan characters and count braces. Quotes
are not tracked, so braces and commas inside string values count as structure.

The model treats standard output as a returned `string`. The header stands for
the `char` buffer `main` reads, and each character of the model is one byte of
it. The printers see the buffer as a C string: the text before the first NUL
(`CText.CStr`).

Modules:

- `Wrappers`: `Option`.
- `CText`: notions shared by both scanners.
  - C strings.
  - Brace balance: `Balance(s)` is the number of `{` minus the number of `}`.
  - Indentation runs.
  - Layout characters: space and newline.
  - `Padded(a, b)`: `b` is `a` with only layout inserted.
  - `strstr` as `Find`.
- `Reformat`: `print_json`.
  - `Pretty` is a reference definition. It prints each character with the
    counter equal to the balance of the text before it.
  - `PrintJsonLoop` is the C loop, proved equal to it.
- `Metadata`: `print_metadata`.
  - `CloseIndex` is the stop point.
  - `Copy` and `Scan` are the reference definitions.
  - `CopyChar`, `CopyLoop` and `PrintMetadataLoop` are the C loop, proved
    equal to them.
- `Cli`: the decisions in `main`.
  - The argument scan (`ScanArgs`) is proved equal to a loop-free statement
    (`Expected`).
  - `Run` covers the size bound, the short read, and the choice of printer.
- `Scenarios`: whole runs on small headers, worked out from the model.

The code differs from a quote-aware JSON tool in these ways, and the model
follows the code:

- Neither scanner tracks quotes.
- The metadata output starts at the key itself, not at the object after it.
- The `}` that ends the copy is printed twice. The character is printed first,
  then the closing `}` (`stinfo.c:62`, `stinfo.c:77`).
- In prettify mode every copied comma is printed twice (`stinfo.c:62`,
  `stinfo.c:87`).
- Without prettify the metadata output is framed too: `{\n   ` before and
  `\n}\n` after (`Scenarios.MetadataAsWritten`).

## Model

| member | source | states |
|---|---|---|
| CText.CStr | stinfo.c:25 | The text a C routine reads is a prefix of the buffer with no NUL in it. It stops only at the end of the buffer or at a NUL. A buffer with no NUL is read whole. |
| CText.CStrEnd | stinfo.c:25 | A scan that stopped at the end or at a NUL, without passing the C string's length, has read exactly the C string. |
| CText.BalanceAppend | stinfo.c:26-32 | The balance of a concatenation is the sum of the balances. |
| CText.BalanceBraceFree | stinfo.c:26-32 | Text without braces has balance 0. |
| CText.Indent | stinfo.c:29 | The run printed for a counter n has length 3·max(n, 0) and holds only spaces. A negative counter prints nothing. |
| CText.Strip | stinfo.c:25-44 | Removing layout leaves no space or newline and never lengthens the text. |
| CText.StripAppend | stinfo.c:25-44 | Removing layout distributes over concatenation. |
| CText.PaddedAppend | stinfo.c:25-44 | Inserting layout into two texts and concatenating them inserts layout into the concatenation. |
| CText.Find | stinfo.c:49 | When it returns an index, the key occurs there and at no earlier index. When it returns nothing, the key occurs nowhere. |
| Reformat.PrintJson | stinfo.c:18-46 | The output always ends in a newline. Without prettify, a header with no NUL is echoed followed by a newline. An empty C string gives exactly a newline. |
| Reformat.Emit | stinfo.c:26-43 | Definition with no contract: what the prettify loop prints for one character, given the counter before it. `Reformat.EmitChar` proves one iteration of the C loop prints exactly this. |
| Reformat.Pretty | stinfo.c:24-44 | Definition with no contract: the prettify loop's output, each character printed by `Emit` with the counter equal to the brace balance of the text before it. `Reformat.PrintJsonLoop` proves the C loop equal to it. |
| Reformat.PrettyPassThrough | stinfo.c:41-43 | Text without braces or commas is printed unchanged and leaves the counter unchanged. |
| Reformat.EmitPadded | stinfo.c:26-43 | The output for one character is that character with only spaces and newlines around it. |
| Reformat.PrettyPadded | stinfo.c:25-44 | Prettifying keeps every character, in order, and adds only spaces and newlines. |
| Reformat.PrettyStrip | stinfo.c:25-44 | Removing spaces and newlines from the prettified text gives the input with its spaces and newlines removed. |
| Reformat.PrintJsonPreserves | stinfo.c:24-45 | The prettified output, final newline included, is the C string with only layout inserted. It has the same text once layout is removed. |
| Reformat.AppendIndent | stinfo.c:29 | The `j < indentTab` loop appends exactly the indentation run for the counter. |
| Reformat.EmitChar | stinfo.c:26-43 | One iteration prints the reference output for the character and moves the counter by that character's brace delta. |
| Reformat.PrintJsonLoop | stinfo.c:18-46 | The C loop stops at the NUL and keeps its counter equal to the balance of the prefix read. Its output equals `PrintJson`. |
| Metadata.CloseFrom | stinfo.c:61-79 | The search returns the first index from its start at which a `}` brings the running balance to 0, or nothing if there is none. |
| Metadata.CloseIndex | stinfo.c:61-79 | The copy stops at the first `}` after which the running balance is 0. Without one it runs to the end of the text. |
| Metadata.PrintMetadata | stinfo.c:48-94 | The output is the not-found message exactly when the key does not occur. Otherwise it starts with `{\n   ` and ends with `\n}\n`. |
| Metadata.Step | stinfo.c:62-89 | Definition with no contract: what the copy loop prints for a character that does not end the copy, given the brace count before it. `Metadata.CopyChar` proves one iteration of the C loop prints exactly this. |
| Metadata.Closing | stinfo.c:73-77 | Definition with no contract: what the copy loop prints for the `}` that ends the copy. `Metadata.CopyChar` proves the breaking iteration prints exactly this. |
| Metadata.Copy | stinfo.c:61-90 | Definition with no contract: the copy of a text none of whose characters ends the copy, each printed by `Step`. `Metadata.CopyLoop` proves the C loop equal to it up to the stop point. |
| Metadata.Scan | stinfo.c:61-91 | Definition with no contract: the copy up to `CloseIndex` followed by `Closing`, or the whole copy when nothing closes. `Metadata.CopyLoop` proves the C loop equal to it. |
| Metadata.CopyPlain | stinfo.c:62 | Without prettify, each copied character is printed once, unchanged. |
| Metadata.Span | stinfo.c:61-79 | The consumed text is a prefix of the text from the key. It ends at the closing `}` when there is one, and is all of that text otherwise. |
| Metadata.ScanPlain | stinfo.c:61-91 | Without prettify, the loop prints the consumed text, followed by a second `}` when it stopped at a closing `}`. |
| Metadata.MetadataPlain | stinfo.c:55-93 | Without prettify, the output is `{\n   `, then the text from the key through the closing `}`, then `}` and `\n}\n`. With no closing `}`, the text runs to the end. |
| Metadata.StepPadded | stinfo.c:62-89 | In prettify mode, one non-final character is printed with only layout added. A comma is printed twice. |
| Metadata.CopyPrettyPadded | stinfo.c:62-89 | In prettify mode the copy is the copied text with every comma doubled and only layout added. |
| Metadata.ScanPrettyPadded | stinfo.c:61-91 | In prettify mode the loop prints the consumed text with commas doubled and a repeated final `}`, plus layout. |
| Metadata.FramedPadded | stinfo.c:60-93 | The frame adds one `{` and one `}` around the copy, plus layout. |
| Metadata.MetadataPrettyPadded | stinfo.c:56-93 | In prettify mode the output is, up to inserted layout, `{`, the consumed text with commas doubled, the repeated `}` if any, and the frame's `}`. |
| Metadata.CopyChar | stinfo.c:62-89 | One iteration moves `braces` by the character's delta. It breaks exactly at a `}` that brings `braces` to 0, printing the closing pair. Otherwise it prints the reference step. In prettify mode it keeps `indentTab == 1 + braces`. |
| Metadata.CopyAdvance | stinfo.c:61-90 | After one more character, `braces` is the balance of the text read, and no earlier character closed the copy. A break happens at the first closing `}`. |
| Metadata.CopyLoop | stinfo.c:55-91 | The `while` loop from the key never reads past the NUL. Its output equals the reference scan of the text from the key. |
| Metadata.PrintMetadataLoop | stinfo.c:48-94 | The C body, with `strstr`, the frame and the loop, equals `PrintMetadata`. |
| Cli.ScanArgs | stinfo.c:105-127 | Definition with no contract: the `for` loop over the arguments and the missing-file-name check, step by step. `Cli.ScanArgsCorrect` proves it equal to `Cli.Expected`. |
| Cli.Expected | stinfo.c:105-127 | Definition with no contract: the loop-free statement of the argument scan's result. `Cli.ScanArgsCorrect` proves the loop equal to it. |
| Cli.ScanArgsCorrect | stinfo.c:105-127 | The `for` loop over the arguments gives help if any argument is `--?`. Otherwise it takes the last non-option argument as the file name, or reports a usage error when there is none. Each flag is set exactly when it occurs. |
| Cli.LastOperandIsOperand | stinfo.c:119-121 | The chosen file name is one of the arguments and not a recognised option. |
| Cli.ParseArgs | stinfo.c:100-127 | Fewer than two arguments gives a usage error. Help is chosen exactly when `--?` occurs. A usage error is chosen exactly when no file name occurs. The file name is the last non-option argument, and each flag is set exactly when it occurs. |
| Cli.Run | stinfo.c:100-182 | A usage error ends with the help and exit 1, and `--?` with the help and exit 0. Exit 0 happens exactly when help was asked for or a printer ran. "Too large" happens exactly when a file name was given, no argument is `--?`, and the declared length is at least 2 MiB. Below the bound, a short read happens exactly when fewer bytes than declared are available, and otherwise the printer runs. A printer runs only on a header under 2 MiB that was read in full. `-m` selects `print_metadata`, otherwise `print_json`, and `-p` is passed on. |
| Scenarios.EchoHeader | stinfo.c:18-21 | `stinfo model.st` on a 13-byte header echoes it followed by a newline. |
| Scenarios.PrettySmall | stinfo.c:24-45 | `{"a":1,"b":2}` prettifies to one key per line, indented by three spaces, with the `}` on its own line. |
| Scenarios.WithNoteKeyAt7 | stinfo.c:49 | The key is found at its first occurrence in the sample header. |
| Scenarios.WithNoteCloses | stinfo.c:71-78 | In the sample, the copy closes at the `}` that ends the metadata object: offset 28 of the text from the key, where the brace count first returns to 0. |
| Scenarios.MetadataAsWritten | stinfo.c:55-93 | Without prettify, the sample prints the frame, the key, the object, a repeated `}`, and the closing frame. |
| Scenarios.MetadataMissing | stinfo.c:49-52 | A header without the key prints only the not-found message, in either mode. |
| Scenarios.TooLargeRefused | stinfo.c:148-152 | A declared length of exactly 2 MiB is refused. |

## Left out

- Opening the file, reading the 8-byte length, `malloc`, `fclose` and `free` (`stinfo.c:129-141`, `stinfo.c:155-170`). `Cli.Run` takes the declared length and the bytes after it as parameters. The failures of `fopen`, of the length read and of `malloc` are not modelled. Each ends the run with exit 1 and a `perror` message.
- The byte order of the length prefix. The program reads it into a `uint64_t` in host order. The model receives it as a natural number.
- The text of `print_help`, of the `perror` messages and of the verbose size line (`stinfo.c:9-16`, `stinfo.c:143-145`). The usage line depends on `argv[0]`, the verbose line on the declared length, and `perror` adds the system's error text. `Cli.Outcome` names which of these a run ends with, but not the text. The verbose line, printed before the size check, is not part of any outcome.
- A header `fread` that returns fewer bytes because of an I/O error. The model reads short exactly when the file holds fewer bytes than declared.
- C `int` overflow of `braces` and `indentTab`. The counters are unbounded integers in the model. The header is shorter than 2 MiB, so the C counters cannot overflow either.
- `strcmp` and `strstr` are modelled by sequence equality and by `CText.Find`. Their byte-level loops are not part of this model.
