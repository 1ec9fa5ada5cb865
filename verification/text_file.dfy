/**
 * Text files opened in Python's text mode with the default `newline=None`:
 * a write turns every `\n` into the platform's line separator (`\r\n` on
 * Windows), and a read turns every `\r\n` and every lone `\r` into `\n`.
 * `Stored` is what a read returns for a text that was written.
 */
module TextFile {
  import opened Text

  /** What a text-mode write puts in the file for `s`. */
  function WriteNewlines(s: string, windows: bool): string {
    if windows then ReplaceChar(s, '\n', "\r\n") else s
  }

  /** Universal-newline reading: `\r\n` and a lone `\r` each become one `\n`. */
  function ReadNewlines(s: string): (r: string)
    ensures '\r' !in r
    ensures '\r' !in s ==> r == s
    ensures |r| <= |s|
  {
    if s == [] then []
    else if s[0] == '\r' then
      if |s| > 1 && s[1] == '\n' then "\n" + ReadNewlines(s[2..]) else "\n" + ReadNewlines(s[1..])
    else
      assert s == [s[0]] + s[1..];
      [s[0]] + ReadNewlines(s[1..])
  }

  /** The text a read returns after `s` was written. */
  function Stored(s: string, windows: bool): string {
    ReadNewlines(WriteNewlines(s, windows))
  }

  /**
   * The text of a line as it reads back when a newline follows it: on
   * Windows every `\r` becomes `\n`; elsewhere `\r\n` and `\r` become `\n`,
   * and a final `\r` merges with the newline after the line.
   */
  function StoredLine(text: string, windows: bool): string {
    if windows then ReplaceChar(text, '\r', "\n")
    else if text != [] && text[|text| - 1] == '\r' then ReadNewlines(text[..|text| - 1])
    else ReadNewlines(text)
  }

  /** Reading distributes over a split that does not cut a `\r\n` in two. */
  lemma {:induction false} ReadAppend(a: string, b: string)
    requires a == [] || b == [] || a[|a| - 1] != '\r' || b[0] != '\n'
    ensures ReadNewlines(a + b) == ReadNewlines(a) + ReadNewlines(b)
    decreases |a|
  {
    if a == [] {
      assert a + b == b;
    } else if a[0] == '\r' && |a| > 1 && a[1] == '\n' {
      assert (a + b)[2..] == a[2..] + b;
      ReadAppend(a[2..], b);
    } else if a[0] == '\r' && |a| == 1 {
      assert (a + b)[1..] == b;
    } else {
      assert (a + b)[1..] == a[1..] + b;
      ReadAppend(a[1..], b);
    }
  }

  /** On Windows, writing then reading turns every `\r` into `\n` and keeps everything else. */
  lemma {:induction false} ReadWindows(s: string)
    ensures ReadNewlines(ReplaceChar(s, '\n', "\r\n")) == ReplaceChar(s, '\r', "\n")
    decreases |s|
  {
    if s != [] {
      var tail := ReplaceChar(s[1..], '\n', "\r\n");
      ReadWindows(s[1..]);
      if s[0] == '\n' {
        assert ReplaceChar(s, '\n', "\r\n") == "\r\n" + tail;
        assert ("\r\n" + tail)[2..] == tail;
      } else {
        assert ReplaceChar(s, '\n', "\r\n") == [s[0]] + tail;
        assert ([s[0]] + tail)[1..] == tail;
        if s[0] == '\r' && tail != [] {
          assert tail[0] != '\n' by {
            assert s[1..] == [s[1]] + s[2..];
            ReplaceCharAppend([s[1]], s[2..], '\n', "\r\n");
            ReplaceCharOne(s[1], '\n', "\r\n");
          }
        }
      }
    }
  }

  /** A text without `\r` reads back exactly as it was written. */
  lemma StoredClean(s: string, windows: bool)
    requires '\r' !in s
    ensures Stored(s, windows) == s
  {
    if windows {
      ReadWindows(s);
    }
  }

  /** Writing and reading distribute over a split right after a newline. */
  lemma StoredAppend(a: string, b: string, windows: bool)
    requires a == [] || a[|a| - 1] == '\n'
    ensures Stored(a + b, windows) == Stored(a, windows) + Stored(b, windows)
  {
    if windows {
      ReplaceCharAppend(a, b, '\n', "\r\n");
      if a != [] {
        var init := a[..|a| - 1];
        assert a == init + "\n";
        ReplaceCharAppend(init, "\n", '\n', "\r\n");
        ReplaceCharOne('\n', '\n', "\r\n");
      }
      ReadAppend(ReplaceChar(a, '\n', "\r\n"), ReplaceChar(b, '\n', "\r\n"));
    } else {
      ReadAppend(a, b);
    }
  }

  /** A line followed by a newline reads back as `StoredLine` followed by one newline. */
  lemma StoredLineEnd(text: string, windows: bool)
    ensures Stored(text + "\n", windows) == StoredLine(text, windows) + "\n"
  {
    if windows {
      ReplaceCharAppend(text, "\n", '\n', "\r\n");
      ReplaceCharOne('\n', '\n', "\r\n");
      ReadAppend(ReplaceChar(text, '\n', "\r\n"), "\r\n");
      ReadWindows(text);
    } else if text != [] && text[|text| - 1] == '\r' {
      var init := text[..|text| - 1];
      assert text + "\n" == init + "\r\n";
      ReadAppend(init, "\r\n");
    } else {
      ReadAppend(text, "\n");
    }
  }

  /** A line without `\r` reads back unchanged. */
  lemma StoredLineClean(text: string, windows: bool)
    requires '\r' !in text
    ensures StoredLine(text, windows) == text
  {
  }

  /** Two carriage returns in a line read back as a blank line, on every platform. */
  lemma CarriageReturnsReadAsBlankLine()
    ensures StoredLine("a\r\rb", false) == "a\n\nb"
    ensures StoredLine("a\r\rb", true) == "a\n\nb"
  {
    var s := "a\r\rb";
    assert s == "a" + ("\r" + ("\r" + "b"));
    assert s[1..] == "\r\rb" && s[2..] == "\rb" && s[3..] == "b";
    assert ReadNewlines("b") == "b";
    assert ReadNewlines("\rb") == "\n" + "b";
    assert ReadNewlines("\r\rb") == "\n" + ("\n" + "b");
    ReplaceCharAppend("a", "\r\rb", '\r', "\n");
    ReplaceCharAppend("\r", "\rb", '\r', "\n");
    ReplaceCharAppend("\r", "b", '\r', "\n");
    ReplaceCharOne('a', '\r', "\n");
    ReplaceCharOne('\r', '\r', "\n");
    ReplaceCharOne('b', '\r', "\n");
  }
}
