/** Parsing and interpreting an event stream, after sections 9.2.5 and 9.2.6 of the HTML Living Standard:
    lines end at CRLF, LF or CR; a blank line dispatches the data buffer. */
module EventSource {
  import opened Common

  /** The lines of a decoded stream that are ended by CRLF, LF or CR. */
  function Lines(text: string): (lines: seq<string>) {
    LinesFrom("", text)
  }

  /** `line` is the part of the current line already read. */
  function LinesFrom(line: string, text: string): seq<string>
    decreases |text|
  {
    if text == "" then []
    else if text[0] == '\r' then
      [line] + LinesFrom("", if |text| > 1 && text[1] == '\n' then text[2..] else text[1..])
    else if text[0] == '\n' then [line] + LinesFrom("", text[1..])
    else LinesFrom(line + [text[0]], text[1..])
  }

  /** A line's field name and value; `None` for a comment. */
  function Field(line: string): Option<(string, string)> {
    match IndexOf(line, ':')
    case None => Some((line, ""))
    case Some(i) =>
      if i == 0 then None
      else
        var value := line[i + 1..];
        Some((line[..i], if value != "" && value[0] == ' ' then value[1..] else value))
  }

  /** The data buffer after a non-blank line. Only the `data` field reaches the dispatched data. */
  function Collect(data: string, line: string): string {
    match Field(line)
    case None => data
    case Some((name, value)) => if name == "data" then data + value + "\n" else data
  }

  /** The data of the events dispatched over `lines`, starting with `data` in the buffer. */
  function Dispatches(data: string, lines: seq<string>): seq<string>
    decreases |lines|
  {
    if lines == [] then []
    else if lines[0] == "" then
      (if data == "" then [] else [data[..|data| - 1]]) + Dispatches("", lines[1..])
    else Dispatches(Collect(data, lines[0]), lines[1..])
  }

  /** The data buffer left at the end of the stream, which the standard discards. */
  function Pending(data: string, lines: seq<string>): string
    decreases |lines|
  {
    if lines == [] then data
    else if lines[0] == "" then Pending("", lines[1..])
    else Pending(Collect(data, lines[0]), lines[1..])
  }
}
