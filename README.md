# Extracting the site triple from a model reply

Slate asks a local Ollama model to generate a small web site. The model is told to
reply with one JSON object holding three strings, `html`, `css` and `js`. Replies
often carry extra wording around that object, so `extract_json_triple`
(`src-tauri/src/main.rs`) cuts the reply from its first `{` to its last `}`
(both included). It parses that span as JSON and then reads the three members.

This project models that function, plus the prompt `generate_site` composes.
Both are pure code. They become Dafny functions with lemmas about them:

- `wrappers.dfy`: `Option` and `Result`.
- `text.dfy` (module `Text`): `str::find` and `str::rfind` for one character, each with
  a contract saying the index is the first / last occurrence.
- `json.dfy` (module `Json`): the JSON value (`serde_json::Value`), `Value::get`,
  `Value::as_str`.
- `extract.dfy` (module `JsonTriple`): the brace span, the member checks, the whole
  extraction, and the properties below.
- `prompt.dfy` (module `Prompt`): the prompt text of line 51 and a function that reads
  the user's prompt back out of it.

Modelling decisions:

- Text is `seq<char>`. Rust's `find`/`rfind` give byte offsets, and the model uses
  character indices. Both braces are ASCII, so the two describe the same slice. They also
  agree on whether the slice bounds are out of order.
- `serde_json::from_str` is a parameter, `parse: string -> Result<JValue, string>`. Every
  lemma holds for every parser. The error string is the parser's own message.
- The three ways the function can end are the datatype `Outcome`. `Extracted(triple)`
  is the `Ok` result. `Failed(error)` is an `anyhow` error, with one `Error` variant per
  failure site: `NoStart`, `NoEnd`, `ParseFail`, `MissingHtml`, `MissingCss`, `MissingJs`.
  `SliceOrderPanic` is the panic that `&s[start..=end]` raises when `end + 1 < start`,
  for example `"}x{"`. When `end + 1 == start` (`"}{"`) the slice is empty. That is not a
  panic: the empty text goes to the parser.

## Model

| member | source | states |
|---|---|---|
| Text.Find | src-tauri/src/main.rs:35 | the result is an index holding `{` with no `{` before it; it is absent exactly when the text has no `{` |
| Text.RFind | src-tauri/src/main.rs:36 | the result is an index holding `}` with no `}` after it; it is absent exactly when the text has no `}` |
| Text.FindIsFirst | src-tauri/src/main.rs:35 | any occurrence with none before it is the one `find` reports |
| Text.RFindIsLast | src-tauri/src/main.rs:36 | any occurrence with none after it is the one `rfind` reports |
| Json.StringField | src-tauri/src/main.rs:39-41 | `get(key).and_then(as_str)` finds a string exactly when the value is an object whose member `key` is a string, and that string is the one found; a non-object gives nothing |
| JsonTriple.BraceSpan | src-tauri/src/main.rs:35-37 | no `{` gives NoOpen; a `{` without `}` gives NoClose; Inverted exactly when both braces exist and every `}` lies more than one place before every `{`; otherwise a range that starts at a `{` with none before it and ends just after a `}` with none after it |
| JsonTriple.CheckFields | src-tauri/src/main.rs:38-42 | a parse failure is passed on with its message before any member is read; then `html`, `css`, `js` are checked in that order and the first one that is missing or not a string names the error; success exactly when all three are strings, and each triple field is the string stored under its key |
| JsonTriple.ExtractJsonTriple | src-tauri/src/main.rs:34-43 | "No JSON start" exactly when the reply has no `{`, whether or not it has a `}`; "No JSON end" exactly when it has a `{` but no `}`; the slice panics exactly when both braces exist and every `}` lies more than one place before every `{` |
| JsonTriple.SpanDecides | src-tauri/src/main.rs:35-38 | for text without `{`, then a span from `{` to `}`, then text without `}`, the outcome is what the field checks give on the span's parse |
| JsonTriple.EmptySpan | src-tauri/src/main.rs:37-38 | when the last `}` sits right before the first `{`, the parser is given the empty text |
| JsonTriple.SurroundingTextIgnored | src-tauri/src/main.rs:35-38 | for a reply with both braces, adding text without `{` in front and text without `}` behind leaves the outcome unchanged |
| JsonTriple.SurroundingTextCanMatter | src-tauri/src/main.rs:35-38 | without both braces in the reply the restriction is needed: `"{"` fails with "No JSON end" but `"}" + "{"` hands the empty text to the parser, a different outcome |
| JsonTriple.BracelessTextIgnored | src-tauri/src/main.rs:35-38 | surrounding text with no braces at all leaves the outcome of every reply unchanged |
| JsonTriple.BraceSpanShifted | src-tauri/src/main.rs:35-37 | such surrounding text moves the brace span by the length of the added prefix, and an out-of-order span stays out of order |
| JsonTriple.SameSliceSameOutcome | src-tauri/src/main.rs:37-42 | two replies whose brace spans hold the same text have the same outcome |
| JsonTriple.SuccessReadsSpan | src-tauri/src/main.rs:37-42 | on success the span's parse is an object, and its `html`, `css` and `js` members are exactly the returned strings |
| JsonTriple.NonObjectMissesHtml | src-tauri/src/main.rs:39 | a parsed value that is not an object fails with "missing html" |
| JsonTriple.ClosingBraceOnly | src-tauri/src/main.rs:35 | `"done }"` fails at the start search, with the text "No JSON start" |
| JsonTriple.GapPanics | src-tauri/src/main.rs:37 | `"}x{"` panics at the slice |
| JsonTriple.AdjacentBracesParseEmpty | src-tauri/src/main.rs:37-38 | `"}{"` with a parser that rejects empty text fails with that parse error |
| Prompt.ComposePrompt | src-tauri/src/main.rs:51 | the prompt is the instructions, then `"\n\nUSER PROMPT:\n"`, then the user's prompt, which it ends with unchanged |
| Prompt.UserPartInverts | src-tauri/src/main.rs:51 | reading the user part back gives `user` exactly when the text is the prompt composed from the instructions and `user` |

## Left out

- Streaming decoders (line-delimited and server-sent-event decoding, a stream session): `src-tauri/src/main.rs` has none. Its request sets `"stream": false` and reads one JSON reply.
- `serde_json::from_str` internals (main.rs:38): a foreign library. It is a parameter, and JSON grammar is not modelled. Numbers are integers in `JValue`, since the extraction never reads one.
- The panic message of the out-of-order slice: a panic is the outcome `SliceOrderPanic` without its text.
- `generate_site` (main.rs:46-71) except the prompt text: the environment-variable lookup, the HTTP request, the status check, the `OllamaResp` decoding and the `"Parse error: …"` wrapping are I/O plumbing around the modelled function.
- `SYSTEM_INSTRUCTIONS` (main.rs:24-32): `ComposePrompt` takes the instructions as a parameter, so its text is not reproduced.
- The `temperature` option (main.rs:9, 53): a floating-point value that is only passed through.
- `save_zip` (main.rs:78-104) and `main` (main.rs:107-113): file dialog, filesystem writes and application start-up.
