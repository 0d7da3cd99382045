/**
 * `calculate_total_step_count`: the number of lines of an (expanded) step
 * text that are leaves, that is, whose extracted shared step name is `""`.
 */
module StepCount {
  import opened Wrappers
  import opened Text
  import opened LineText
  import opened Extract
  import opened SharedSteps
  import opened Expander
  import opened ExpanderProps

  /** The lines of `lines` that are not references, in their order. */
  function Leaves(lines: seq<string>): seq<string> {
    if lines == [] then []
    else (if IsReference(lines[0]) then [] else [lines[0]]) + Leaves(lines[1..])
  }

  /**
   * `calculate_total_step_count(text)`: the number of lines of `text` that
   * are not references (which lines they are: `LeavesSpec`).
   */
  function TotalStepCount(text: string): (count: nat)
    ensures count == |set i: nat | i < |SplitLines(text)| && !IsReference(SplitLines(text)[i])|
    ensures count <= |SplitLines(text)|
  {
    LeavesCardinality(SplitLines(text));
    LeavesCount(SplitLines(text));
    |Leaves(SplitLines(text))|
  }

  /** Every leaf is a line of `lines` that is not a reference. */
  lemma {:induction false} LeavesMembers(lines: seq<string>)
    ensures forall k :: 0 <= k < |Leaves(lines)| ==> Leaves(lines)[k] in lines && !IsReference(Leaves(lines)[k])
    decreases |lines|
  {
    if lines != [] {
      var head := if IsReference(lines[0]) then [] else [lines[0]];
      var rest := Leaves(lines[1..]);
      LeavesMembers(lines[1..]);
      assert Leaves(lines) == head + rest;
      forall k | |head| <= k < |Leaves(lines)|
        ensures Leaves(lines)[k] in lines && !IsReference(Leaves(lines)[k])
      {
        assert Leaves(lines)[k] == rest[k - |head|];
        assert rest[k - |head|] in lines[1..];
      }
    }
  }

  /** Every line of `lines` that is not a reference is a leaf. */
  lemma {:induction false} LeavesComplete(lines: seq<string>)
    ensures forall i :: 0 <= i < |lines| && !IsReference(lines[i]) ==> lines[i] in Leaves(lines)
    decreases |lines|
  {
    if lines != [] {
      var head := if IsReference(lines[0]) then [] else [lines[0]];
      var rest := Leaves(lines[1..]);
      LeavesComplete(lines[1..]);
      assert Leaves(lines) == head + rest;
      forall i | 1 <= i < |lines| && !IsReference(lines[i])
        ensures lines[i] in Leaves(lines)
      {
        assert lines[i] == lines[1..][i - 1];
        assert lines[i] in rest;
      }
    }
  }

  /** The positions of the lines that are not references. */
  ghost function LeafPositions(lines: seq<string>): set<nat> {
    set i: nat | i < |lines| && !IsReference(lines[i])
  }

  /** The leaves of a sequence ending in `last`: those of the others, then `last` unless it is a reference. */
  lemma {:induction false} LeavesSnoc(lines: seq<string>, init: seq<string>, last: string)
    requires lines == init + [last]
    ensures Leaves(lines) == Leaves(init) + (if IsReference(last) then [] else [last])
  {
    assert [last][1..] == [];
    LeavesAppend(init, [last]);
  }

  /** The leaf positions of a sequence ending in `last`: those of the others, then its own unless it is a reference. */
  lemma {:induction false} LeafPositionsSnoc(lines: seq<string>, init: seq<string>, last: string)
    requires lines == init + [last]
    ensures |init| !in LeafPositions(init)
    ensures LeafPositions(lines) == LeafPositions(init) + (if IsReference(last) then {} else {|init|})
  {
    assert forall i :: 0 <= i < |init| ==> lines[i] == init[i];
  }

  /** There are exactly as many leaves as lines that are not references. */
  lemma {:induction false} LeavesCardinality(lines: seq<string>)
    ensures |Leaves(lines)| == |LeafPositions(lines)|
    decreases |lines|
  {
    if lines == [] {
      assert LeafPositions(lines) == {};
    } else {
      var n := |lines| - 1;
      var init, last := lines[..n], lines[n];
      LeavesSnoc(lines, init, last);
      LeafPositionsSnoc(lines, init, last);
      LeavesCardinality(init);
    }
  }

  /** There are at most as many leaves as lines, and exactly as many when no line is a reference. */
  lemma {:induction false} LeavesCount(lines: seq<string>)
    ensures |Leaves(lines)| <= |lines|
    ensures |Leaves(lines)| == |lines| <==> forall i :: 0 <= i < |lines| ==> !IsReference(lines[i])
    decreases |lines|
  {
    if lines != [] {
      LeavesCount(lines[1..]);
      assert forall i :: 1 <= i < |lines| ==> lines[1..][i - 1] == lines[i];
    }
  }

  /**
   * The leaves are the lines of `lines` that are not references: each leaf
   * is such a line, each such line is a leaf, and there are exactly as many
   * leaves as such lines, so at most as many as lines, and exactly as many
   * when no line is a reference.
   */
  lemma {:induction false} LeavesSpec(lines: seq<string>)
    ensures forall k :: 0 <= k < |Leaves(lines)| ==> Leaves(lines)[k] in lines && !IsReference(Leaves(lines)[k])
    ensures forall i :: 0 <= i < |lines| && !IsReference(lines[i]) ==> lines[i] in Leaves(lines)
    ensures |Leaves(lines)| == |set i: nat | i < |lines| && !IsReference(lines[i])|
    ensures |Leaves(lines)| <= |lines|
    ensures |Leaves(lines)| == |lines| <==> forall i :: 0 <= i < |lines| ==> !IsReference(lines[i])
  {
    LeavesMembers(lines);
    LeavesComplete(lines);
    LeavesCount(lines);
    LeavesCardinality(lines);
  }

  /** Counting over two runs of lines adds up. */
  lemma {:induction false} LeavesAppend(a: seq<string>, b: seq<string>)
    ensures Leaves(a + b) == Leaves(a) + Leaves(b)
    decreases |a|
  {
    if a == [] {
      assert a + b == b;
    } else {
      assert (a + b)[0] == a[0] && (a + b)[1..] == a[1..] + b;
      LeavesAppend(a[1..], b);
    }
  }

  /** Indenting lines neither adds nor removes leaves. */
  lemma {:induction false} LeavesPrefixed(lines: seq<string>, n: nat)
    ensures |Leaves(PrefixLines(lines, Spaces(n)))| == |Leaves(lines)|
    decreases |lines|
  {
    if lines != [] {
      var p := PrefixLines(lines, Spaces(n));
      PrefixKeepsName(lines[0], n);
      assert p[1..] == PrefixLines(lines[1..], Spaces(n));
      LeavesPrefixed(lines[1..], n);
    }
  }

  /** A text with no reference line counts every one of its lines. */
  lemma {:induction false} ReferenceFreeCount(text: string)
    requires forall i :: 0 <= i < |SplitLines(text)| ==> !IsReference(SplitLines(text)[i])
    ensures TotalStepCount(text) == |SplitLines(text)|
  {
    LeavesSpec(SplitLines(text));
  }

  /**
   * Expanding a text with no reference line leaves it with one step per
   * line, just as before.
   */
  lemma {:induction false} ReferenceFreeExpansionCount(text: string, m: NameMap, fuel: nat)
    requires forall i :: 0 <= i < |SplitLines(text)| ==> !IsReference(SplitLines(text)[i])
    ensures ExpandText(text, m, fuel).Some?
    ensures TotalStepCount(ExpandText(text, m, fuel).value) == TotalStepCount(text) == |SplitLines(text)|
  {
    ReferenceFreeTextIsJoin(text, m, fuel);
    SplitJoin(SplitLines(text));
    ReferenceFreeCount(text);
  }

  /** The steps the blocks after `lines` hold, summed over the lines. */
  function InsertedSteps(lines: seq<string>, m: NameMap, fuel: nat): nat {
    if lines == [] then 0
    else
      (match BlockLines(lines[0], m, fuel)
       case None => 0
       case Some(block) => |Leaves(block)|)
      + InsertedSteps(lines[1..], m, fuel)
  }

  /**
   * The steps of an expansion are the leaves of the input lines plus the
   * leaves of every block inserted after a reference line.
   */
  lemma {:induction false} ExpandedStepCount(lines: seq<string>, m: NameMap, fuel: nat)
    requires ExpandedLines(lines, m, fuel).Some?
    ensures |Leaves(ExpandedLines(lines, m, fuel).value)| == |Leaves(lines)| + InsertedSteps(lines, m, fuel)
    decreases |lines|
  {
    if lines != [] {
      var step := lines[0];
      var block := BlockLines(step, m, fuel).value;
      var rest := ExpandedLines(lines[1..], m, fuel).value;
      ExpandedStepCount(lines[1..], m, fuel);
      LeavesAppend([step] + block, rest);
      LeavesAppend([step], block);
      assert Leaves([step]) == Leaves(lines[..1]);
      assert lines == lines[..1] + lines[1..];
      LeavesAppend(lines[..1], lines[1..]);
    }
  }

  /**
   * The block inserted for a resolved group holds as many steps as the
   * group's own expansion: indenting it changes no count.
   */
  lemma {:induction false} GroupStepCount(group: SharedStep, m: NameMap, indent: nat, fuel: nat, inner: string)
    requires fuel > 0 && ExpandText(group.humanReadableSteps, m, fuel - 1) == Some(inner)
    ensures IndentedGroup(group, m, indent, fuel).Some?
    ensures TotalStepCount(IndentedGroup(group, m, indent, fuel).value) == TotalStepCount(inner)
  {
    GroupIndentation(group, m, indent, fuel, inner);
    LeavesPrefixed(SplitLines(inner), indent);
  }

  // Two worked scenarios: a reference that resolves to a group of two steps, and one that resolves to nothing.

  /** A plain step line: one line, not whitespace only, and not a reference. */
  predicate LeafLine(s: string) {
    s != [] && NoBreaks(s) && !IsBlank(s) && !IsReference(s)
  }

  /** The reference line `Shared step: <n>` for a stripped name `n` on one line. */
  lemma {:induction false} ReferenceLineFacts(n: string)
    requires n != [] && NoBreaks(n) && IsStripped(n)
    ensures NoBreaks(SharedStepPrefixes[0] + " " + n)
    ensures SharedStepName(SharedStepPrefixes[0] + " " + n) == " " + n
    ensures Strip(" " + n) == n
    ensures Indentation(SharedStepPrefixes[0] + " " + n) == 2
  {
    var step := SharedStepPrefixes[0] + " " + n;
    MarkerNoBreaks(0);
    NoBreaksAppend(" ", n);
    NoBreaksAppend(SharedStepPrefixes[0], " " + n);
    assert step == SharedStepPrefixes[0] + (" " + n);
    StripSpec(n);
    assert (" " + n)[|" " + n| - 1] == n[|n| - 1];
    MarkedLineName(0, " " + n);
    StripBlankPrefix(" ", n);
    assert step[0] == 'S';
  }

  /** Two plain lines form a text of exactly those two lines, whatever the map. */
  lemma {:induction false} TwoLeafLines(text: string, a: string, b: string, m: NameMap)
    requires LeafLine(a) && LeafLine(b) && text == a + "\n" + b
    ensures SplitLines(text) == [a, b]
    ensures NoneResolve([a, b], m)
  {
    SplitLinesCons(a, b);
    SplitLinesSingle(b);
  }

  /** The output lines for a line in front of others. */
  lemma {:induction false} ExpandedCons(step: string, rest: seq<string>, m: NameMap, fuel: nat)
    ensures ExpandedLines([step] + rest, m, fuel) ==
      if BlockLines(step, m, fuel).Some? && ExpandedLines(rest, m, fuel).Some?
      then Some([step] + BlockLines(step, m, fuel).value + ExpandedLines(rest, m, fuel).value)
      else None
  {
    assert ([step] + rest)[0] == step && ([step] + rest)[1..] == rest;
  }

  /** A line followed by a plain line: the line, its block, then the plain line. */
  lemma {:induction false} ExpandTwoLines(step: string, c: string, block: seq<string>, m: NameMap, fuel: nat)
    requires NoBreaks(step) && LeafLine(c) && BlockLines(step, m, fuel) == Some(block)
    ensures ExpandText(step + "\n" + c, m, fuel) == Some(Join([step] + block + [c]))
  {
    SplitLinesCons(step, c);
    SplitLinesSingle(c);
    assert NoneResolve([c], m);
    UnresolvedLinesKept([c], m, fuel);
    ExpandedCons(step, [c], m, fuel);
    assert [step] + [c] == [step, c];
    ExpandTextLines(step + "\n" + c, m, fuel);
  }

  /**
   * A reference line resolving to a group none of whose lines resolves:
   * the group's lines follow it, each indented two spaces more than the line.
   */
  lemma {:induction false} PlainGroupBlock(step: string, m: NameMap, key: string, lines: seq<string>, fuel: nat)
    requires IsReference(step) && Resolve(SharedStepName(step), m) == Some(key) && fuel > 0
    requires SplitLines(m[key].humanReadableSteps) == lines && NoneResolve(lines, m)
    ensures BlockLines(step, m, fuel) == Some(PrefixLines(lines, Spaces(Indentation(step))))
  {
    PlainGroup(m[key], m, lines, Indentation(step), fuel);
    ResolvedBlock(step, m, key, PrefixLines(lines, Spaces(Indentation(step))), fuel);
  }

  /** A name whose stripped form is the only key resolves to it. */
  lemma {:induction false} SingleKeyResolves(name: string, group: SharedStep)
    ensures Resolve(name, map[Strip(name) := group]) == Some(Strip(name))
    ensures map[Strip(name) := group][Strip(name)] == group
  {
    ResolveStrippedKey(name, map[Strip(name) := group]);
  }

  /** The block after a reference line whose name resolves to `key`. */
  lemma {:induction false} ResolvedBlock(step: string, m: NameMap, key: string, lines: seq<string>, fuel: nat)
    requires IsReference(step) && Resolve(SharedStepName(step), m) == Some(key)
    requires GroupLines(m[key], m, Indentation(step), fuel) == Some(lines)
    ensures BlockLines(step, m, fuel) == Some(lines)
  {
  }

  /** Two lines that are not whitespace only, indented by two spaces. */
  lemma {:induction false} PrefixTwo(a: string, b: string, indent: nat)
    requires indent == 2 && !IsBlank(a) && !IsBlank(b)
    ensures PrefixLines([a, b], Spaces(indent)) == ["  " + a, "  " + b]
  {
    assert Spaces(2) == "  ";
  }

  /** A group none of whose lines resolves expands to its own lines, indented. */
  lemma {:induction false} PlainGroup(group: SharedStep, m: NameMap, lines: seq<string>, indent: nat, fuel: nat)
    requires fuel > 0 && SplitLines(group.humanReadableSteps) == lines && NoneResolve(lines, m)
    ensures GroupLines(group, m, indent, fuel) == Some(PrefixLines(lines, Spaces(indent)))
  {
    var f: nat := fuel - 1;
    UnresolvedLinesKept(lines, m, f);
  }

  lemma {:induction false} JoinTwo(x: string, y: string)
    ensures Join([x, y]) == x + "\n" + y + "\n"
  {
    assert [x, y][1..] == [y] && [y][1..] == [];
    assert Join([y]) == y + "\n";
    assert (x + "\n") + (y + "\n") == x + "\n" + y + "\n";
  }

  lemma {:induction false} JoinFour(w: string, x: string, y: string, z: string)
    ensures Join([w, x, y, z]) == w + "\n" + x + "\n" + y + "\n" + z + "\n"
  {
    assert [w, x, y, z] == [w] + [x, y, z] && [x, y, z] == [x] + [y, z] && [y, z] == [y] + [z];
    JoinAppend([w], [x, y, z]);
    JoinAppend([x], [y, z]);
    JoinAppend([y], [z]);
    assert Join([z]) == z + "\n" + Join([]) && Join([y]) == y + "\n" + Join([]);
    assert Join([x]) == x + "\n" + Join([]) && Join([w]) == w + "\n" + Join([]);
  }

  /** The text of a line, two lines indented by two spaces, and a last line. */
  lemma {:induction false} JoinIndentedPair(w: string, a: string, b: string, z: string)
    ensures Join([w, "  " + a, "  " + b, z]) == w + "\n" + "  " + a + "\n" + "  " + b + "\n" + z + "\n"
  {
    JoinFour(w, "  " + a, "  " + b, z);
    assert (w + "\n") + ("  " + a) == w + "\n" + "  " + a;
    assert (w + "\n" + "  " + a + "\n") + ("  " + b) == w + "\n" + "  " + a + "\n" + "  " + b;
  }

  /** One reference line and one leaf leave one step. */
  lemma {:induction false} OneOfTwo(w: string, z: string)
    requires IsReference(w) && !IsReference(z)
    ensures |Leaves([w, z])| == 1
  {
    assert [w, z] == [w] + [z];
    LeavesAppend([w], [z]);
    assert Leaves([w]) == [] + Leaves([]) && Leaves([z]) == [z] + Leaves([]);
  }

  /** One reference line among four lines leaves three steps. */
  lemma {:induction false} ThreeOfFour(w: string, x: string, y: string, z: string)
    requires IsReference(w) && !IsReference(x) && !IsReference(y) && !IsReference(z)
    ensures |Leaves([w, x, y, z])| == 3
  {
    assert [w, x, y, z] == [w] + [x, y, z] && [x, y, z] == [x] + [y, z] && [y, z] == [y] + [z];
    LeavesAppend([w], [x, y, z]);
    LeavesAppend([x], [y, z]);
    LeavesAppend([y], [z]);
    assert Leaves([w]) == [] + Leaves([]) && Leaves([x]) == [x] + Leaves([]);
    assert Leaves([y]) == [y] + Leaves([]) && Leaves([z]) == [z] + Leaves([]);
  }

  /** A plain line indented by two spaces is still one plain step line. */
  lemma {:induction false} IndentedLeaf(a: string)
    requires LeafLine(a)
    ensures NoBreaks("  " + a) && !IsReference("  " + a)
  {
    assert Spaces(2) == "  ";
    NoBreaksAppend(Spaces(2), a);
    PrefixKeepsName(a, 2);
  }

  /**
   * A reference line that resolves to a group of two plain lines, followed by
   * a plain line: the group's lines come indented by two spaces right after
   * the reference line, and the expanded text counts three steps.
   */
  lemma {:induction false} SingleGroupText(step: string, n: string, a: string, b: string, c: string, number: int, fuel: nat)
    requires NoBreaks(step) && IsReference(step) && Strip(SharedStepName(step)) == n && Indentation(step) == 2
    requires LeafLine(a) && LeafLine(b) && LeafLine(c) && fuel > 0
    ensures ExpandText(step + "\n" + c, map[n := SharedStep(number, n, a + "\n" + b)], fuel)
      == Some(step + "\n" + "  " + a + "\n" + "  " + b + "\n" + c + "\n")
    ensures TotalStepCount(step + "\n" + "  " + a + "\n" + "  " + b + "\n" + c + "\n") == 3
  {
    var group := SharedStep(number, n, a + "\n" + b);
    SingleKeyResolves(SharedStepName(step), group);
    GroupedExpansion(step, c, map[n := group], n, a, b, fuel);
    FourLines(step, a, b, c);
  }

  /** The expansion of a reference line to a group of two plain lines, followed by a plain line. */
  lemma {:induction false} GroupedExpansion(step: string, c: string, m: NameMap, key: string, a: string, b: string, fuel: nat)
    requires NoBreaks(step) && IsReference(step) && Resolve(SharedStepName(step), m) == Some(key) && Indentation(step) == 2
    requires m[key].humanReadableSteps == a + "\n" + b
    requires LeafLine(a) && LeafLine(b) && LeafLine(c) && fuel > 0
    ensures ExpandText(step + "\n" + c, m, fuel) == Some(Join([step] + ["  " + a, "  " + b] + [c]))
  {
    TwoLeafLines(m[key].humanReadableSteps, a, b, m);
    PlainGroupBlock(step, m, key, [a, b], fuel);
    PrefixTwo(a, b, Indentation(step));
    ExpandTwoLines(step, c, ["  " + a, "  " + b], m, fuel);
  }

  /** The text of a reference line, two indented plain lines and a plain line, and its three steps. */
  lemma {:induction false} FourLines(step: string, a: string, b: string, c: string)
    requires NoBreaks(step) && IsReference(step) && LeafLine(a) && LeafLine(b) && LeafLine(c)
    ensures Join([step] + ["  " + a, "  " + b] + [c]) == step + "\n" + "  " + a + "\n" + "  " + b + "\n" + c + "\n"
    ensures TotalStepCount(step + "\n" + "  " + a + "\n" + "  " + b + "\n" + c + "\n") == 3
  {
    var out := [step, "  " + a, "  " + b, c];
    assert [step] + ["  " + a, "  " + b] + [c] == out;
    JoinIndentedPair(step, a, b, c);
    IndentedLeaf(a);
    IndentedLeaf(b);
    assert AllNoBreaks(out);
    SplitJoin(out);
    ThreeOfFour(step, "  " + a, "  " + b, c);
  }

  /**
   * A reference line followed by a plain line, with an empty map: the text
   * is passed through line by line, and only the plain line counts as a step.
   */
  lemma {:induction false} UnresolvedText(step: string, c: string, m: NameMap, fuel: nat)
    requires NoBreaks(step) && IsReference(step) && LeafLine(c)
    requires Resolve(SharedStepName(step), m).None?
    ensures ExpandText(step + "\n" + c, m, fuel) == Some(step + "\n" + c + "\n")
    ensures TotalStepCount(step + "\n" + c + "\n") == 1
  {
    assert BlockLines(step, m, fuel) == Some([]);
    ExpandTwoLines(step, c, [], m, fuel);
    var out := [step, c];
    assert [step] + [] + [c] == out;
    JoinTwo(step, c);
    assert ExpandText(step + "\n" + c, m, fuel) == Some(Join(out));
    SplitJoin(out);
    OneOfTwo(step, c);
  }

  /**
   * `Shared step: <n>` followed by a plain line, with `n` naming a group of
   * two plain lines: the group's lines appear indented by two spaces right
   * after the reference line, and the text counts three steps.
   */
  lemma {:induction false} SingleGroupExpansion(n: string, a: string, b: string, c: string, number: int, fuel: nat)
    requires n != [] && NoBreaks(n) && IsStripped(n)
    requires LeafLine(a) && LeafLine(b) && LeafLine(c) && fuel > 0
    ensures ExpandText(SharedStepPrefixes[0] + " " + n + "\n" + c, map[n := SharedStep(number, n, a + "\n" + b)], fuel)
      == Some(SharedStepPrefixes[0] + " " + n + "\n" + "  " + a + "\n" + "  " + b + "\n" + c + "\n")
    ensures TotalStepCount(SharedStepPrefixes[0] + " " + n + "\n" + "  " + a + "\n" + "  " + b + "\n" + c + "\n") == 3
  {
    ReferenceLineFacts(n);
    SingleGroupText(SharedStepPrefixes[0] + " " + n, n, a, b, c, number, fuel);
  }

  /**
   * `Shared step: <n>` followed by a plain line, with an empty map: the text
   * is passed through, and only the plain line counts as a step.
   */
  lemma {:induction false} UnresolvedGroupExpansion(n: string, c: string, fuel: nat)
    requires n != [] && NoBreaks(n) && IsStripped(n)
    requires LeafLine(c)
    ensures ExpandText(SharedStepPrefixes[0] + " " + n + "\n" + c, map[], fuel)
      == Some(SharedStepPrefixes[0] + " " + n + "\n" + c + "\n")
    ensures TotalStepCount(SharedStepPrefixes[0] + " " + n + "\n" + c + "\n") == 1
  {
    ReferenceLineFacts(n);
    var step := SharedStepPrefixes[0] + " " + n;
    assert Resolve(SharedStepName(step), map[]).None?;
    UnresolvedText(step, c, map[], fuel);
  }

  /**
   * A line of printable ASCII that starts with neither a space nor the `S`
   * of the English marker and does not end in a space is a plain step line.
   */
  lemma {:induction false} AsciiLeaf(s: string)
    requires s != [] && s[0] != ' ' && s[0] != 'S' && s[|s| - 1] != ' '
    requires forall i :: 0 <= i < |s| ==> ' ' <= s[i] <= '~'
    ensures LeafLine(s)
  {
    StripOfUnpadded(s);
    SharedStepNameSpec(s);
    var p, q := SharedStepPrefixes[0], SharedStepPrefixes[1];
    assert p[0] == 'S' && q[0] == '共';
    assert |p| <= |s| ==> s[..|p|][0] == s[0];
    assert |q| <= |s| ==> s[..|q|][0] == s[0];
  }

  lemma {:induction false} AsciiName(s: string)
    requires s != [] && s[0] != ' ' && s[|s| - 1] != ' '
    requires forall i :: 0 <= i < |s| ==> ' ' <= s[i] <= '~'
    ensures NoBreaks(s) && IsStripped(s)
  {
    StripOfUnpadded(s);
  }

  /**
   * The scenario with the group `Login` of steps `Enter username` and
   * `Enter password`: `Shared step: Login` then `Click submit` expands to the
   * four lines with the group's steps indented, and counts three steps.
   */
  lemma {:induction false} LoginScenario(n: string, a: string, b: string, c: string, number: int)
    requires n == "Login" && a == "Enter username" && b == "Enter password" && c == "Click submit"
    ensures ExpandText(SharedStepPrefixes[0] + " " + n + "\n" + c, map[n := SharedStep(number, n, a + "\n" + b)], 1)
      == Some(SharedStepPrefixes[0] + " " + n + "\n" + "  " + a + "\n" + "  " + b + "\n" + c + "\n")
    ensures TotalStepCount(SharedStepPrefixes[0] + " " + n + "\n" + "  " + a + "\n" + "  " + b + "\n" + c + "\n") == 3
  {
    AsciiName(n);
    LoginStep(a);
    LoginStep(b);
    LoginStep(c);
    SingleGroupExpansion(n, a, b, c, number, 1);
  }

  /** Each of the scenario's three steps is a plain step line. */
  lemma {:induction false} LoginStep(s: string)
    requires s == "Enter username" || s == "Enter password" || s == "Click submit"
    ensures LeafLine(s)
  {
    AsciiLeaf(s);
  }

  /**
   * The scenario with an empty map: `Shared step: Ghost` then `Do thing` is
   * passed through, and only `Do thing` counts as a step.
   */
  lemma {:induction false} GhostScenario(n: string, c: string, fuel: nat)
    requires n == "Ghost" && c == "Do thing"
    ensures ExpandText(SharedStepPrefixes[0] + " " + n + "\n" + c, map[], fuel)
      == Some(SharedStepPrefixes[0] + " " + n + "\n" + c + "\n")
    ensures TotalStepCount(SharedStepPrefixes[0] + " " + n + "\n" + c + "\n") == 1
  {
    AsciiName(n);
    AsciiLeaf(c);
    UnresolvedGroupExpansion(n, c, fuel);
  }
}
