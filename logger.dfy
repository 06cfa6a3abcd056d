/**
 * The transformer's log (src/lib/logger.py): an object that collects lines
 * and renders them joined by newlines.
 */
module Logger {
  import opened Strings

  /** `"\n".join(entries)`. */
  function Render(entries: seq<string>): string
  {
    Join("\n", entries)
  }

  /** The line `section(title)` adds after its blank line. */
  function SectionHeader(title: string): string
  {
    "=== " + title + " ==="
  }

  class TransformerLog {
    var entries: seq<string>

    constructor()
      ensures entries == []
      ensures GetLog() == ""
    {
      entries := [];
    }

    /** `log(message)`: the message becomes the last line. */
    method Log(message: string)
      modifies this
      ensures entries == old(entries) + [message]
      ensures GetLog() == if old(entries) == [] then message else old(GetLog()) + "\n" + message
    {
      RenderSnoc(entries, message);
      entries := entries + [message];
    }

    /** `section(title)`: a blank line, then the header line. */
    method Section(title: string)
      modifies this
      ensures entries == old(entries) + ["", SectionHeader(title)]
      ensures GetLog() == if old(entries) == [] then "\n" + SectionHeader(title)
                          else old(GetLog()) + "\n\n" + SectionHeader(title)
    {
      RenderSection(entries, SectionHeader(title));
      entries := entries + ["", SectionHeader(title)];
    }

    /** `get_log()`. */
    function GetLog(): string
      reads this
    {
      Render(entries)
    }

    /** `clear()`: no lines left. */
    method Clear()
      modifies this
      ensures entries == []
      ensures GetLog() == ""
    {
      entries := [];
    }
  }

  /** Appending a line to the log appends it to the rendered text, after a
      newline unless the log was empty. */
  lemma RenderSnoc(entries: seq<string>, message: string)
    ensures Render(entries + [message]) == if entries == [] then message else Render(entries) + "\n" + message
  {
    JoinSnoc("\n", entries, message);
  }

  /** A blank line and a header after the lines give two newlines before the
      header, or one when there were no lines. */
  lemma RenderSection(entries: seq<string>, header: string)
    ensures Render(entries + ["", header]) == if entries == [] then "\n" + header else Render(entries) + "\n\n" + header
  {
    var blank := entries + [""];
    RenderSnoc(entries, "");
    RenderSnoc(blank, header);
    assert blank + [header] == entries + ["", header];
    if entries != [] {
      assert Render(entries) + "\n" + "" + "\n" + header == Render(entries) + "\n\n" + header;
    } else {
      assert "" + "\n" + header == "\n" + header;
    }
  }

  /** The rendered log splits back into its lines when no line holds a
      newline of its own; an empty log renders as the empty text, which
      splits into the one empty line. */
  lemma RenderLines(entries: seq<string>)
    requires forall i :: 0 <= i < |entries| ==> '\n' !in entries[i]
    ensures Split(Render(entries), '\n') == if entries == [] then [""] else entries
  {
    assert "\n" == ['\n'];
    if entries != [] {
      SplitJoin(entries, '\n');
    }
  }

  /** The rendered log is the concatenation of its lines and one newline
      between each two: its length counts both. */
  lemma {:induction false} RenderLength(entries: seq<string>)
    requires entries != []
    ensures |Render(entries)| == TotalLength(entries) + |entries| - 1
    decreases |entries|
  {
    if |entries| > 1 {
      RenderLength(entries[1..]);
    }
  }

  function TotalLength(xs: seq<string>): nat
  {
    if xs == [] then 0 else |xs[0]| + TotalLength(xs[1..])
  }
}
