/**
 * Line handling: Python's `str.splitlines()` with and without `keepends`,
 * the "each line followed by a newline" text the expander produces, and
 * `textwrap.indent` with its default predicate.
 */
module LineText {
  import opened Text

  /** The line boundaries of Python's `str.splitlines()` (`\r\n` counts as one). */
  predicate IsLineBreak(c: char) {
    c == '\n' || c == '\r' || c == '\U{B}' || c == '\U{C}' || ('\U{1C}' <= c <= '\U{1E}')
    || c == '\U{85}' || c == '\U{2028}' || c == '\U{2029}'
  }

  predicate NoBreaks(line: string) {
    forall i :: 0 <= i < |line| ==> !IsLineBreak(line[i])
  }

  predicate AllNoBreaks(lines: seq<string>) {
    forall i :: 0 <= i < |lines| ==> NoBreaks(lines[i])
  }

  /** The index of the first line boundary in `s`, or `|s|` when there is none. */
  function FirstBreak(s: string): (n: nat)
    ensures n <= |s|
    ensures forall i :: 0 <= i < n ==> !IsLineBreak(s[i])
    ensures n < |s| ==> IsLineBreak(s[n])
  {
    if s == [] || IsLineBreak(s[0]) then 0 else 1 + FirstBreak(s[1..])
  }

  /** The length of the line boundary at index `i`: 2 for `\r\n`, otherwise 1. */
  function BreakLength(s: string, i: nat): (n: nat)
    requires i < |s|
    ensures 1 <= n && i + n <= |s|
  {
    if s[i] == '\r' && i + 1 < |s| && s[i + 1] == '\n' then 2 else 1
  }

  /**
   * `s.splitlines()`: the lines of `s` without their boundaries; a final
   * boundary does not start another (empty) line, and `""` has no lines.
   */
  function SplitLines(s: string): (lines: seq<string>)
    ensures AllNoBreaks(lines)
    ensures lines == [] <==> s == []
    decreases |s|
  {
    if s == [] then []
    else
      var i := FirstBreak(s);
      if i == |s| then [s]
      else
        var rest := SplitLines(s[i + BreakLength(s, i)..]);
        assert NoBreaks(s[..i]);
        [s[..i]] + rest
  }

  /** The concatenation of a sequence of strings, `''.join(chunks)`. */
  function Concat(chunks: seq<string>): string {
    if chunks == [] then "" else chunks[0] + Concat(chunks[1..])
  }

  /**
   * `s.splitlines(True)`: the same lines, each with its boundary kept; no
   * piece is empty and the pieces put back together give `s`.
   */
  function SplitLinesKeepEnds(s: string): (pieces: seq<string>)
    ensures Concat(pieces) == s
    ensures forall k :: 0 <= k < |pieces| ==> pieces[k] != []
    decreases |s|
  {
    if s == [] then []
    else
      var i := FirstBreak(s);
      if i == |s| then
        assert Concat([s]) == s + Concat([]);
        [s]
      else
        var j := i + BreakLength(s, i);
        var rest := SplitLinesKeepEnds(s[j..]);
        assert Concat([s[..j]] + rest) == s[..j] + Concat(rest);
        assert s == s[..j] + s[j..];
        [s[..j]] + rest
  }

  /**
   * `piece` is `line` with its boundary: `"\r\n"` or one line-boundary
   * character, or nothing at all when `last` (a text that does not end in a
   * boundary).
   */
  predicate PieceOfLine(piece: string, line: string, last: bool) {
    piece == line + "\r\n"
    || (|piece| == |line| + 1 && piece[..|line|] == line && IsLineBreak(piece[|line|]))
    || (last && piece == line)
  }

  /** The first piece of a text starts with the text's first character. */
  lemma {:induction false} KeepEndsHead(s: string)
    requires s != []
    ensures SplitLinesKeepEnds(s) != [] && SplitLinesKeepEnds(s)[0][0] == s[0]
  {
    var i := FirstBreak(s);
    if i < |s| {
      assert s[..i + BreakLength(s, i)][0] == s[0];
    }
  }

  /** The text up to and including its first boundary is its first line with that boundary. */
  lemma {:induction false} BrokenPiece(s: string, i: nat, j: nat)
    requires i == FirstBreak(s) < |s| && j == i + BreakLength(s, i)
    ensures PieceOfLine(s[..j], s[..i], false)
  {
    assert s[..j][..i] == s[..i];
    if j == i + 2 {
      assert s[..j] == s[..i] + "\r\n";
    } else {
      assert s[..j][i] == s[i];
    }
  }

  /** Each piece of `splitlines(True)` is the matching line followed by its boundary. */
  lemma {:induction false} KeepEndsLines(s: string)
    ensures |SplitLinesKeepEnds(s)| == |SplitLines(s)|
    ensures forall k :: 0 <= k < |SplitLines(s)| ==>
      PieceOfLine(SplitLinesKeepEnds(s)[k], SplitLines(s)[k], k == |SplitLines(s)| - 1)
    decreases |s|
  {
    if s != [] {
      var i := FirstBreak(s);
      if i < |s| {
        var j := i + BreakLength(s, i);
        var t := s[j..];
        KeepEndsLines(t);
        var ps, ls := SplitLinesKeepEnds(s), SplitLines(s);
        var ps', ls' := SplitLinesKeepEnds(t), SplitLines(t);
        assert ps == [s[..j]] + ps';
        assert ls == [s[..i]] + ls';
        BrokenPiece(s, i, j);
        forall k | 1 <= k < |ls|
          ensures PieceOfLine(ps[k], ls[k], k == |ls| - 1)
        {
          assert ps[k] == ps'[k - 1] && ls[k] == ls'[k - 1];
        }
      }
    }
  }

  /** In `pieces`, no piece ending in `"\r"` is followed by a piece starting with `"\n"`. */
  predicate CrLfKept(pieces: seq<string>) {
    forall k :: 0 <= k < |pieces| - 1 && pieces[k] != [] && pieces[k + 1] != [] ==>
      (pieces[k][|pieces[k]| - 1] == '\r' ==> pieces[k + 1][0] != '\n')
  }

  lemma {:induction false} CrLfCons(p: string, pieces: seq<string>)
    requires CrLfKept(pieces) && p != []
    requires pieces != [] && pieces[0] != [] && p[|p| - 1] == '\r' ==> pieces[0][0] != '\n'
    ensures CrLfKept([p] + pieces)
  {
    var ps := [p] + pieces;
    forall k | 1 <= k < |ps| - 1 && ps[k] != [] && ps[k + 1] != []
      ensures ps[k][|ps[k]| - 1] == '\r' ==> ps[k + 1][0] != '\n'
    {
      assert ps[k] == pieces[k - 1] && ps[k + 1] == pieces[k];
    }
  }

  /** The first boundary of a text ends in a lone `"\r"` only when no `"\n"` follows it. */
  lemma {:induction false} LoneCr(s: string, i: nat, j: nat)
    requires i == FirstBreak(s) < |s| && j == i + BreakLength(s, i) && j < |s|
    ensures s[..j][j - 1] == '\r' ==> s[j] != '\n'
  {
    assert s[..j][j - 1] == s[j - 1];
  }

  /** A piece ending in a lone `"\r"` is never followed by a piece starting with `"\n"`. */
  lemma {:induction false} KeepEndsCrLf(s: string)
    ensures CrLfKept(SplitLinesKeepEnds(s))
    decreases |s|
  {
    if s != [] {
      var i := FirstBreak(s);
      if i < |s| {
        var j := i + BreakLength(s, i);
        var t := s[j..];
        KeepEndsCrLf(t);
        if t != [] {
          KeepEndsHead(t);
          LoneCr(s, i, j);
        }
        CrLfCons(s[..j], SplitLinesKeepEnds(t));
      } else {
        assert SplitLinesKeepEnds(s) == [s];
      }
    }
  }

  /**
   * `splitlines(True)` and `splitlines()` cut the text at the same places:
   * there are as many pieces as lines, each piece is its line followed by
   * its boundary (only the last may have none), and a piece ending in a
   * lone `"\r"` is never followed by a piece starting with `"\n"`, so
   * `"\r\n"` is one boundary. With `Concat(SplitLinesKeepEnds(s)) == s`,
   * this says the lines are exactly the text between its boundaries.
   */
  lemma {:induction false} KeepEndsPieces(s: string)
    ensures Concat(SplitLinesKeepEnds(s)) == s
    ensures |SplitLinesKeepEnds(s)| == |SplitLines(s)|
    ensures forall k :: 0 <= k < |SplitLines(s)| ==>
      PieceOfLine(SplitLinesKeepEnds(s)[k], SplitLines(s)[k], k == |SplitLines(s)| - 1)
    ensures CrLfKept(SplitLinesKeepEnds(s))
  {
    KeepEndsLines(s);
    KeepEndsCrLf(s);
  }

  /** The text built by emitting every line followed by `"\n"`. */
  function Join(lines: seq<string>): string {
    if lines == [] then "" else lines[0] + "\n" + Join(lines[1..])
  }

  lemma {:induction false} JoinAppend(a: seq<string>, b: seq<string>)
    ensures Join(a + b) == Join(a) + Join(b)
    decreases |a|
  {
    if a != [] {
      assert (a + b)[1..] == a[1..] + b;
      JoinAppend(a[1..], b);
    } else {
      assert a + b == b;
    }
  }

  /** A line without boundaries followed by `"\n"` is one `splitlines` piece. */
  lemma {:induction false} FirstBreakOfLine(line: string, rest: string)
    requires NoBreaks(line)
    ensures FirstBreak(line + "\n" + rest) == |line|
    ensures BreakLength(line + "\n" + rest, |line|) == 1
    ensures (line + "\n" + rest)[..|line|] == line
    ensures (line + "\n" + rest)[|line| + 1..] == rest
  {
    var s := line + "\n" + rest;
    assert s[|line|] == '\n';
    assert forall i :: 0 <= i < |line| ==> s[i] == line[i];
  }

  /** Splitting the emitted text gives back exactly the emitted lines. */
  lemma {:induction false} SplitJoin(lines: seq<string>)
    requires AllNoBreaks(lines)
    ensures SplitLines(Join(lines)) == lines
    decreases |lines|
  {
    if lines != [] {
      FirstBreakOfLine(lines[0], Join(lines[1..]));
      SplitJoin(lines[1..]);
    }
  }

  lemma {:induction false} NoBreaksAppend(a: string, b: string)
    requires NoBreaks(a) && NoBreaks(b)
    ensures NoBreaks(a + b)
  {
    forall i | 0 <= i < |a + b| ensures !IsLineBreak((a + b)[i]) {
      if i < |a| {
        assert (a + b)[i] == a[i];
      } else {
        assert (a + b)[i] == b[i - |a|];
      }
    }
  }

  /** A boundary-free line is its own single line. */
  lemma {:induction false} SplitLinesSingle(line: string)
    requires line != [] && NoBreaks(line)
    ensures SplitLines(line) == [line]
  {
  }

  /** A boundary-free line and `"\n"` in front of more text: that line, then the lines of the rest. */
  lemma {:induction false} SplitLinesCons(line: string, rest: string)
    requires NoBreaks(line)
    ensures SplitLines(line + "\n" + rest) == [line] + SplitLines(rest)
  {
    FirstBreakOfLine(line, rest);
  }

  /** `n` spaces, the prefix `" " * n`. */
  function Spaces(n: nat): (r: string)
    ensures |r| == n && IsBlank(r) && NoBreaks(r)
  {
    seq(n, _ => ' ')
  }

  /** How `textwrap.indent` treats one line: whitespace-only lines are left as they are. */
  function PrefixLine(line: string, prefix: string): string {
    if IsBlank(line) then line else prefix + line
  }

  function PrefixLines(lines: seq<string>, prefix: string): (r: seq<string>)
    ensures |r| == |lines|
    ensures forall i :: 0 <= i < |lines| ==> r[i] == PrefixLine(lines[i], prefix)
  {
    if lines == [] then [] else [PrefixLine(lines[0], prefix)] + PrefixLines(lines[1..], prefix)
  }

  /** The pieces prefixed as `textwrap.indent` does, then joined. */
  function PrefixPieces(pieces: seq<string>, prefix: string): string {
    if pieces == [] then "" else PrefixLine(pieces[0], prefix) + PrefixPieces(pieces[1..], prefix)
  }

  /**
   * `textwrap.indent(text, prefix)`: every piece of
   * `text.splitlines(True)` that is not whitespace only gets `prefix` in front.
   * Nothing is ever removed, and an empty prefix or a whitespace-only text
   * leaves the text as it is (the lines it prefixes: `IndentJoin`).
   */
  function Indent(text: string, prefix: string): (r: string)
    ensures |r| >= |text|
    ensures prefix == [] || IsBlank(text) ==> r == text
  {
    PrefixPiecesKeep(SplitLinesKeepEnds(text), prefix);
    PrefixPieces(SplitLinesKeepEnds(text), prefix)
  }

  /** Prefixing pieces only adds text, and adds none for an empty prefix or blank pieces. */
  lemma {:induction false} PrefixPiecesKeep(pieces: seq<string>, prefix: string)
    ensures |PrefixPieces(pieces, prefix)| >= |Concat(pieces)|
    ensures prefix == [] || IsBlank(Concat(pieces)) ==> PrefixPieces(pieces, prefix) == Concat(pieces)
    decreases |pieces|
  {
    if pieces != [] {
      var head, rest := pieces[0], Concat(pieces[1..]);
      PrefixPiecesKeep(pieces[1..], prefix);
      if IsBlank(head + rest) {
        assert forall i :: 0 <= i < |head| ==> head[i] == (head + rest)[i];
        assert forall i :: 0 <= i < |rest| ==> rest[i] == (head + rest)[|head| + i];
      }
      if prefix == [] {
        assert prefix + head == head;
      }
    }
  }

  lemma {:induction false} BlankWithNewline(line: string)
    ensures IsBlank(line + "\n") <==> IsBlank(line)
  {
    assert forall i :: 0 <= i < |line| ==> (line + "\n")[i] == line[i];
  }

  /**
   * On text made of boundary-free lines each followed by `"\n"`,
   * `textwrap.indent` prefixes exactly the lines that are not whitespace only.
   */
  lemma {:induction false} IndentJoin(lines: seq<string>, prefix: string)
    requires AllNoBreaks(lines)
    ensures Indent(Join(lines), prefix) == Join(PrefixLines(lines, prefix))
    decreases |lines|
  {
    if lines != [] {
      var line, rest := lines[0], Join(lines[1..]);
      FirstBreakOfLine(line, rest);
      assert line + "\n" + rest == (line + "\n") + rest;
      assert SplitLinesKeepEnds(Join(lines)) == [line + "\n"] + SplitLinesKeepEnds(rest);
      BlankWithNewline(line);
      assert PrefixLine(line + "\n", prefix) == PrefixLine(line, prefix) + "\n";
      IndentJoin(lines[1..], prefix);
      assert PrefixLines(lines, prefix)[1..] == PrefixLines(lines[1..], prefix);
    }
  }

  /** Prefixing with spaces adds no line boundary. */
  lemma {:induction false} PrefixLinesNoBreaks(lines: seq<string>, n: nat)
    requires AllNoBreaks(lines)
    ensures AllNoBreaks(PrefixLines(lines, Spaces(n)))
  {
    forall i | 0 <= i < |lines| ensures NoBreaks(PrefixLines(lines, Spaces(n))[i]) {
      var line := lines[i];
      if !IsBlank(line) {
        assert forall k :: 0 <= k < |Spaces(n) + line| ==>
          (Spaces(n) + line)[k] == if k < n then ' ' else line[k - n];
      }
    }
  }

  /**
   * `out` is `xs` with `blocks[i]` placed right after `xs[i]`: `xs[i]` sits at
   * index `pos[i]` of `out`, its block follows it, and the next element of
   * `xs` comes straight after that block.
   */
  predicate Interleaves(xs: seq<string>, blocks: seq<seq<string>>, pos: seq<nat>, out: seq<string>) {
    |blocks| == |xs| && |pos| == |xs|
    && (xs == [] ==> out == [])
    && (xs != [] ==> pos[0] == 0 && pos[|xs| - 1] + 1 + |blocks[|xs| - 1]| == |out|)
    && (forall i :: 0 <= i < |xs| ==> pos[i] + 1 + |blocks[i]| <= |out|)
    && (forall i :: 0 <= i < |xs| ==> out[pos[i]] == xs[i] && out[pos[i] + 1..pos[i] + 1 + |blocks[i]|] == blocks[i])
    && (forall i :: 0 < i < |xs| ==> pos[i] == pos[i - 1] + 1 + |blocks[i - 1]|)
  }

  /** Every position moved on by `k`. */
  function Shift(pos: seq<nat>, k: nat): (r: seq<nat>)
    ensures |r| == |pos| && forall i :: 0 <= i < |pos| ==> r[i] == pos[i] + k
  {
    seq(|pos|, i requires 0 <= i < |pos| => pos[i] + k)
  }

  /** An entry of `out` and the block after it, seen past a prefix `p`. */
  lemma {:induction false} ShiftedEntry(p: seq<string>, out: seq<string>, a: nat, y: string, blk: seq<string>)
    requires a + 1 + |blk| <= |out| && out[a] == y && out[a + 1..a + 1 + |blk|] == blk
    ensures (p + out)[|p| + a] == y && (p + out)[|p| + a + 1..|p| + a + 1 + |blk|] == blk
  {
    assert (p + out)[|p| + a + 1..|p| + a + 1 + |blk|] == out[a + 1..a + 1 + |blk|];
  }

  /** The line and its block at the front. */
  lemma {:induction false} FrontBlock(x: string, b: seq<string>, out: seq<string>)
    ensures ([x] + b + out)[0] == x && ([x] + b + out)[1..1 + |b|] == b
  {
    assert ([x] + b + out)[1..1 + |b|] == ([x] + b)[1..];
  }

  /** The interleaving of `xs` behind a prefix `p` holding its first element and block. */
  lemma {:induction false} ConsEntries(xs: seq<string>, blocks: seq<seq<string>>, pos: seq<nat>, out: seq<string>,
                                       xs': seq<string>, blocks': seq<seq<string>>, pos': seq<nat>, out': seq<string>, p: seq<string>)
    requires Interleaves(xs, blocks, pos, out)
    requires |xs'| == |xs| + 1 && xs'[1..] == xs && |blocks'| == |xs'| && blocks'[1..] == blocks
    requires out' == p + out && |pos'| == |xs'| && pos'[0] == 0 && pos'[1..] == Shift(pos, |p|)
    requires |p| == 1 + |blocks'[0]| && out'[0] == xs'[0] && out'[1..|p|] == blocks'[0]
    ensures Interleaves(xs', blocks', pos', out')
  {
    forall i | 0 <= i < |xs'|
      ensures pos'[i] + 1 + |blocks'[i]| <= |out'|
      ensures out'[pos'[i]] == xs'[i] && out'[pos'[i] + 1..pos'[i] + 1 + |blocks'[i]|] == blocks'[i]
      ensures i > 0 ==> pos'[i] == pos'[i - 1] + 1 + |blocks'[i - 1]|
    {
      if i > 0 {
        var j := i - 1;
        assert blocks'[i] == blocks[j] && xs'[i] == xs[j] && pos'[i] == pos[j] + |p|;
        ShiftedEntry(p, out, pos[j], xs[j], blocks[j]);
        if j > 0 {
          assert pos'[i - 1] == pos[j - 1] + |p| && blocks'[i - 1] == blocks[j - 1];
        }
      }
    }
    if xs != [] {
      assert pos'[|xs'| - 1] == pos[|xs| - 1] + |p| && blocks'[|xs'| - 1] == blocks[|xs| - 1];
    }
  }

  /** Putting a line and its block in front of an interleaving. */
  lemma {:induction false} InterleavesCons(x: string, b: seq<string>, xs: seq<string>, blocks: seq<seq<string>>, pos: seq<nat>, out: seq<string>)
    requires Interleaves(xs, blocks, pos, out)
    ensures Interleaves([x] + xs, [b] + blocks, [0] + Shift(pos, 1 + |b|), [x] + b + out)
  {
    var xs', blocks', pos', out' := [x] + xs, [b] + blocks, [0] + Shift(pos, 1 + |b|), [x] + b + out;
    FrontBlock(x, b, out);
    assert xs'[1..] == xs && blocks'[1..] == blocks && pos'[1..] == Shift(pos, 1 + |b|);
    assert blocks'[0] == b && xs'[0] == x;
    ConsEntries(xs, blocks, pos, out, xs', blocks', pos', out', [x] + b);
  }
}
