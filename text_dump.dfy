/** The TEXT dump of src/main.cc: the content of an annotation's <TEXT> is put
    between double quotes and every newline in it is written as the two
    characters backslash and 'n', by a loop that edits the string in place. */
module TextDump {

  /** How one character is written: a newline as backslash-n, anything else as itself. */
  function EscapeChar(c: char): (r: string)
    ensures c == '\n' ==> r == ['\\', 'n']
    ensures c != '\n' ==> r == [c]
  {
    if c == '\n' then ['\\', 'n'] else [c]
  }

  /** The text with every newline written as backslash-n, character by character. */
  function Escape(s: string): (r: string)
    ensures |s| <= |r| <= 2 * |s|
  {
    if s == [] then [] else Escape(s[..|s| - 1]) + EscapeChar(s[|s| - 1])
  }

  /** The number of newlines in a text. */
  function NewlineCount(s: string): nat
  {
    if s == [] then 0 else NewlineCount(s[..|s| - 1]) + (if s[|s| - 1] == '\n' then 1 else 0)
  }

  /** The dump of a text: a quote, the escaped text, a quote. */
  function Quoted(content: string): (r: string)
    ensures |r| >= 2 && r[0] == '"' && r[|r| - 1] == '"'
    ensures r[1..|r| - 1] == Escape(content)
  {
    ['"'] + Escape(content) + ['"']
  }

  /** Escaping a prefix one character longer appends that character's escape. */
  lemma EscapeStep(s: string, k: nat)
    requires k < |s|
    ensures Escape(s[..k + 1]) == Escape(s[..k]) + EscapeChar(s[k])
  {
    assert s[..k + 1][..k] == s[..k];
  }

  /** Escaping works piecewise: the escape of two texts joined is the two escapes joined. */
  lemma {:induction false} EscapeAppend(a: string, b: string)
    ensures Escape(a + b) == Escape(a) + Escape(b)
    decreases |b|
  {
    if b == [] {
      assert a + b == a;
    } else {
      var b' := b[..|b| - 1];
      assert (a + b)[..|a + b| - 1] == a + b';
      EscapeAppend(a, b');
    }
  }

  /** No raw newline is left in an escaped text. */
  lemma {:induction false} NoNewlineLeft(s: string)
    ensures forall k :: 0 <= k < |Escape(s)| ==> Escape(s)[k] != '\n'
  {
    if s != [] {
      NoNewlineLeft(s[..|s| - 1]);
    }
  }

  /** Each newline adds exactly one character. */
  lemma {:induction false} EscapeLength(s: string)
    ensures |Escape(s)| == |s| + NewlineCount(s)
  {
    if s != [] {
      EscapeLength(s[..|s| - 1]);
    }
  }

  /** Every character keeps its place in order: the k-th character of the
      text is written, as itself or as backslash-n, starting at k plus the
      number of newlines before it. */
  lemma EscapePosition(s: string, k: nat)
    requires k < |s|
    ensures var at := k + NewlineCount(s[..k]);
            && at + |EscapeChar(s[k])| <= |Escape(s)|
            && Escape(s)[at..at + |EscapeChar(s[k])|] == EscapeChar(s[k])
  {
    assert s == s[..k + 1] + s[k + 1..];
    EscapeAppend(s[..k + 1], s[k + 1..]);
    EscapeStep(s, k);
    EscapeLength(s[..k]);
    assert Escape(s) == Escape(s[..k]) + EscapeChar(s[k]) + Escape(s[k + 1..]);
  }

  /** A text without newlines is written unchanged. */
  lemma {:induction false} EscapeWithoutNewlines(s: string)
    requires forall k :: 0 <= k < |s| ==> s[k] != '\n'
    ensures Escape(s) == s
  {
    if s != [] {
      EscapeWithoutNewlines(s[..|s| - 1]);
      assert s[..|s| - 1] + [s[|s| - 1]] == s;
    }
  }

  /** The dump does not tell a newline from a backslash followed by 'n'. */
  lemma NewlineAndBackslashNAlike()
    ensures Escape("\n") == Escape("\\n")
  {
    assert "\\n"[..1] == "\\";
    assert "\\n"[..1][..0] == [];
    assert "\n"[..0] == [];
  }

  /** Quoting commutes with escaping, because a quote is written as itself. */
  lemma EscapeQuoted(content: string)
    ensures Escape(['"'] + content + ['"']) == Quoted(content)
  {
    EscapeAppend(['"'] + content, ['"']);
    EscapeAppend(['"'], content);
    assert ['"'][..0] == [];
  }

  /** One pass of the loop over a character that is not a newline: the text
      is unchanged and one more character of it counts as escaped. */
  lemma KeepStep(original: string, k: nat)
    requires k < |original| && original[k] != '\n'
    ensures Escape(original[..k]) + original[k..] == Escape(original[..k + 1]) + original[k + 1..]
    ensures |Escape(original[..k + 1])| == |Escape(original[..k])| + 1
  {
    EscapeStep(original, k);
    assert original[k..] == [original[k]] + original[k + 1..];
  }

  /** One pass of the loop over a newline: replacing the character at `i` by
      backslash-n makes one more character of the text escaped. */
  lemma ReplaceStep(original: string, k: nat, text: string, i: nat)
    requires k < |original| && original[k] == '\n'
    requires text == Escape(original[..k]) + original[k..]
    requires i == |Escape(original[..k])|
    ensures i < |text|
    ensures text[..i] + ['\\', 'n'] + text[i + 1..] == Escape(original[..k + 1]) + original[k + 1..]
    ensures i + 2 == |Escape(original[..k + 1])|
  {
    EscapeStep(original, k);
    assert text[..i] == Escape(original[..k]);
    assert text[i + 1..] == original[k + 1..];
  }

  /** The loop of src/main.cc: walk the string with `i`, replacing each
      newline by backslash-n and stepping over the two inserted characters,
      so that they are never examined again. */
  method EscapeNewlines(original: string) returns (text: string)
    ensures text == Escape(original)
  {
    text := original;
    var i := 0;
    ghost var k := 0;
    assert original[..0] == [];
    while i < |text|
      invariant 0 <= k <= |original|
      invariant text == Escape(original[..k]) + original[k..]
      invariant i == |Escape(original[..k])|
      decreases |original| - k
    {
      assert text[i] == original[k];
      if text[i] != '\n' {
        KeepStep(original, k);
        i := i + 1;
        k := k + 1;
        continue;
      }
      ReplaceStep(original, k, text, i);
      text := text[..i] + ['\\', 'n'] + text[i + 1..];
      i := i + 2;
      k := k + 1;
    }
    assert original[..k] == original;
  }

  /** The dump of a <TEXT>: the content between double quotes, then escaped. */
  method QuoteAndEscape(content: string) returns (text: string)
    ensures text == Quoted(content)
  {
    text := ['"'] + content + ['"'];
    text := EscapeNewlines(text);
    EscapeQuoted(content);
  }
}
