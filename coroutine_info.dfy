/**
 * `CoroutineInfo.toString`: the block a coroutine dump shows for one
 * coroutine. A quoted name line, a status line, and one "at" line per stack
 * trace element, each line ended by a newline.
 *
 * The text of a `Thread` and of a `StackTraceElement` come from the JVM; the
 * thread is given as its text and elements are shown through `show`.
 */
module CoroutineDump {
  import opened Text
  import opened CommonDataClasses
  import opened ManagerStack

  datatype CoroutineInfo = CoroutineInfo(
    name: string,
    additionalInfo: string,
    thread: string,
    status: CoroutineStatus,
    stack: seq<StackTraceElement>)

  /** The first line, without its newline. */
  function HeaderLine(info: CoroutineInfo): string
  {
    "\"" + info.name + "\" " + info.additionalInfo
  }

  /** The second line, without its newline: the thread is named only while running. */
  function StatusLine(info: CoroutineInfo): string
  {
    "  Status: " + StatusText(info.status) + (if info.status == Running then " on thread " + info.thread else "")
  }

  /** One line per stack element, top frame first, without newlines. */
  function ElementLines(stack: seq<StackTraceElement>, show: StackTraceElement -> string): (r: seq<string>)
    ensures |r| == |stack|
    ensures forall i :: 0 <= i < |stack| ==> r[i] == "    at " + show(stack[i])
  {
    seq(|stack|, i requires 0 <= i < |stack| => "    at " + show(stack[i]))
  }

  /** The `forEach` that appends one "    at <element>\n" per element. */
  function AppendElements(stack: seq<StackTraceElement>, show: StackTraceElement -> string): (r: string)
    ensures r == Terminated(ElementLines(stack, show))
    decreases |stack|
  {
    if stack == [] then ""
    else
      var rest := AppendElements(stack[1..], show);
      assert ElementLines(stack, show)[1..] == ElementLines(stack[1..], show);
      "    at " + show(stack[0]) + "\n" + rest
  }

  /** `toString`: the header, the status line and the element lines, each newline-terminated. */
  function InfoText(info: CoroutineInfo, show: StackTraceElement -> string): (r: string)
    ensures r == Terminated([HeaderLine(info), StatusLine(info)] + ElementLines(info.stack, show))
  {
    var lines := [HeaderLine(info), StatusLine(info)] + ElementLines(info.stack, show);
    assert lines[1..][1..] == ElementLines(info.stack, show);
    "\"" + info.name + "\" " + info.additionalInfo + "\n"
      + "  Status: " + StatusText(info.status)
      + (if info.status == Running then " on thread " + info.thread else "")
      + "\n"
      + AppendElements(info.stack, show)
  }

  /** No line break inside any part of the block. */
  predicate SingleLineParts(info: CoroutineInfo, show: StackTraceElement -> string)
  {
    && '\n' !in info.name && '\n' !in info.additionalInfo && '\n' !in info.thread
    && forall i :: 0 <= i < |info.stack| ==> '\n' !in show(info.stack[i])
  }

  /**
   * Read back line by line, the block is exactly the header, the status line
   * and one line per element in stack order (2 + |stack| lines), followed by
   * nothing but the final newline.
   */
  lemma InfoTextLines(info: CoroutineInfo, show: StackTraceElement -> string)
    requires SingleLineParts(info, show)
    ensures var lines := Split(InfoText(info, show), "\n");
      && lines == [HeaderLine(info), StatusLine(info)] + ElementLines(info.stack, show) + [""]
      && |lines| == 2 + |info.stack| + 1
  {
    var lines := [HeaderLine(info), StatusLine(info)] + ElementLines(info.stack, show);
    forall i | 0 <= i < |lines| ensures '\n' !in lines[i] {
      if i >= 2 {
        assert lines[i] == "    at " + show(info.stack[i - 2]);
      }
    }
    SplitTerminated(lines);
  }
}
