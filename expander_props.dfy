/**
 * Properties of the shared step expander, proved against a line-level
 * reference: the expansion as a sequence of output lines, each reference
 * line followed by the lines of its group's expansion, prefixed as
 * `textwrap.indent` prefixes them.
 */
module ExpanderProps {
  import opened Wrappers
  import opened Text
  import opened LineText
  import opened Extract
  import opened NameCandidates
  import opened SharedSteps
  import opened Expander

  /** The text with every line followed by `"\n"`, or `None`. */
  function JoinOpt(o: Option<seq<string>>): Option<string> {
    match o
    case None => None
    case Some(lines) => Some(Join(lines))
  }

  /**
   * The output lines for `lines`: each input line, followed by the lines its
   * reference expands to.
   */
  function ExpandedLines(lines: seq<string>, m: NameMap, fuel: nat): Option<seq<string>>
    decreases fuel, 0, |lines| + 2
  {
    if lines == [] then Some([])
    else
      var block := BlockLines(lines[0], m, fuel);
      var rest := ExpandedLines(lines[1..], m, fuel);
      if block.Some? && rest.Some? then Some([lines[0]] + block.value + rest.value) else None
  }

  /** The lines inserted after `step`: none for a leaf or an unresolved reference. */
  function BlockLines(step: string, m: NameMap, fuel: nat): Option<seq<string>>
    decreases fuel, 0, 1
  {
    var name := SharedStepName(step);
    if name == "" then Some([])
    else
      match Resolve(name, m)
      case None => Some([])
      case Some(key) => GroupLines(m[key], m, Indentation(step), fuel)
  }

  /**
   * The lines of the group's own expansion, with `indent` spaces in front of
   * each that is not whitespace only.
   */
  function GroupLines(group: SharedStep, m: NameMap, indent: nat, fuel: nat): Option<seq<string>>
    decreases fuel, 0, 0
  {
    if fuel == 0 then None
    else
      match ExpandedLines(SplitLines(group.humanReadableSteps), m, fuel - 1)
      case None => None
      case Some(inner) => Some(PrefixLines(inner, Spaces(indent)))
  }

  /** The text of a line followed by two runs of lines. */
  lemma {:induction false} JoinCons(step: string, b: seq<string>, r: seq<string>)
    ensures Join([step] + b + r) == step + "\n" + Join(b) + Join(r)
  {
    assert [step] + b + r == [step] + (b + r);
    JoinAppend([step], b + r);
    JoinAppend(b, r);
    assert [step][1..] == [];
  }

  /** A line followed by two runs of lines, none holding a line boundary, holds none. */
  lemma {:induction false} NoBreaksCons(step: string, b: seq<string>, r: seq<string>)
    requires NoBreaks(step) && AllNoBreaks(b) && AllNoBreaks(r)
    ensures AllNoBreaks([step] + b + r)
  {
    var out := [step] + b + r;
    forall i | 0 <= i < |out| ensures NoBreaks(out[i]) {
      if i == 0 {
        assert out[i] == step;
      } else if i <= |b| {
        assert out[i] == b[i - 1];
      } else {
        assert out[i] == r[i - 1 - |b|];
      }
    }
  }

  lemma {:induction false} NoBreaksTail(lines: seq<string>)
    requires lines != [] && AllNoBreaks(lines)
    ensures NoBreaks(lines[0]) && AllNoBreaks(lines[1..])
  {
    assert forall i :: 0 <= i < |lines[1..]| ==> lines[1..][i] == lines[i + 1];
  }

  /**
   * The text expander and the line-level reference agree: the text is the
   * reference lines each followed by `"\n"`, and no output line holds a line
   * boundary when no input line does.
   */
  lemma {:induction false} LinesAgree(lines: seq<string>, m: NameMap, fuel: nat)
    ensures ExpandLines(lines, m, fuel) == JoinOpt(ExpandedLines(lines, m, fuel))
    ensures AllNoBreaks(lines) && ExpandedLines(lines, m, fuel).Some? ==>
      AllNoBreaks(ExpandedLines(lines, m, fuel).value)
    decreases fuel, 0, |lines| + 2
  {
    if lines != [] {
      var step := lines[0];
      BlockAgree(step, m, fuel);
      LinesAgree(lines[1..], m, fuel);
      var b := BlockLines(step, m, fuel);
      var r := ExpandedLines(lines[1..], m, fuel);
      if b.Some? && r.Some? {
        JoinCons(step, b.value, r.value);
        if AllNoBreaks(lines) {
          NoBreaksTail(lines);
          NoBreaksCons(step, b.value, r.value);
        }
      }
    }
  }

  /** The same agreement for what follows a single line. */
  lemma {:induction false} BlockAgree(step: string, m: NameMap, fuel: nat)
    ensures LineBlock(step, m, fuel) == JoinOpt(BlockLines(step, m, fuel))
    ensures BlockLines(step, m, fuel).Some? ==> AllNoBreaks(BlockLines(step, m, fuel).value)
    decreases fuel, 0, 1
  {
    var name := SharedStepName(step);
    if name != "" && Resolve(name, m).Some? {
      var key := Resolve(name, m).value;
      GroupAgree(m[key], m, Indentation(step), fuel);
    }
  }

  /** The same agreement for a resolved group. */
  lemma {:induction false} GroupAgree(group: SharedStep, m: NameMap, indent: nat, fuel: nat)
    ensures IndentedGroup(group, m, indent, fuel) == JoinOpt(GroupLines(group, m, indent, fuel))
    ensures GroupLines(group, m, indent, fuel).Some? ==> AllNoBreaks(GroupLines(group, m, indent, fuel).value)
    decreases fuel, 0, 0
  {
    if fuel > 0 {
      var ls := SplitLines(group.humanReadableSteps);
      var f: nat := fuel - 1;
      LinesAgree(ls, m, f);
      var e := ExpandedLines(ls, m, f);
      GroupUnfold(group, m, indent, fuel, ExpandLines(ls, m, f), e);
      if e.Some? {
        IndentJoin(e.value, Spaces(indent));
        PrefixLinesNoBreaks(e.value, indent);
      }
    }
  }

  /** One step of `IndentedGroup` and of `GroupLines`, in terms of the group's lines. */
  lemma {:induction false} GroupUnfold(group: SharedStep, m: NameMap, indent: nat, fuel: nat,
                                       t: Option<string>, e: Option<seq<string>>)
    requires fuel > 0 && ExpandLines(SplitLines(group.humanReadableSteps), m, fuel - 1) == t
    requires ExpandedLines(SplitLines(group.humanReadableSteps), m, fuel - 1) == e
    ensures IndentedGroup(group, m, indent, fuel) == if t.Some? then Some(Indent(t.value, Spaces(indent))) else None
    ensures GroupLines(group, m, indent, fuel) == if e.Some? then Some(PrefixLines(e.value, Spaces(indent))) else None
  {
  }

  /**
   * Expanding a text is expanding its `splitlines()` lines; splitting the
   * result again gives exactly the reference output lines.
   */
  lemma {:induction false} ExpandTextLines(text: string, m: NameMap, fuel: nat)
    ensures ExpandText(text, m, fuel) == JoinOpt(ExpandedLines(SplitLines(text), m, fuel))
    ensures ExpandText(text, m, fuel).Some? ==>
      SplitLines(ExpandText(text, m, fuel).value) == ExpandedLines(SplitLines(text), m, fuel).value
  {
    var lines := SplitLines(text);
    LinesAgree(lines, m, fuel);
    if ExpandedLines(lines, m, fuel).Some? {
      SplitJoin(ExpandedLines(lines, m, fuel).value);
    }
  }

  // Lines that resolve to nothing

  /** No line of `lines` is a reference that resolves. */
  predicate NoneResolve(lines: seq<string>, m: NameMap) {
    forall i :: 0 <= i < |lines| ==> !Resolves(lines[i], m)
  }

  /** Lines of which none resolves are passed through unchanged. */
  lemma {:induction false} UnresolvedLinesKept(lines: seq<string>, m: NameMap, fuel: nat)
    requires NoneResolve(lines, m)
    ensures ExpandedLines(lines, m, fuel) == Some(lines)
    decreases |lines|
  {
    if lines != [] {
      assert !Resolves(lines[0], m);
      assert BlockLines(lines[0], m, fuel) == Some([]);
      assert NoneResolve(lines[1..], m) by {
        forall i | 0 <= i < |lines[1..]| ensures !Resolves(lines[1..][i], m) {
          assert lines[1..][i] == lines[i + 1];
        }
      }
      UnresolvedLinesKept(lines[1..], m, fuel);
      assert [lines[0]] + [] + lines[1..] == lines;
    }
  }

  /**
   * A text in which no reference resolves comes out as its `splitlines()`
   * lines each followed by `"\n"`, whatever the fuel.
   */
  lemma {:induction false} UnresolvedTextIsJoin(text: string, m: NameMap, fuel: nat)
    requires NoneResolve(SplitLines(text), m)
    ensures ExpandText(text, m, fuel) == Some(Join(SplitLines(text)))
  {
    ExpandTextLines(text, m, fuel);
    UnresolvedLinesKept(SplitLines(text), m, fuel);
  }

  /** In particular a text without any reference line. */
  lemma {:induction false} ReferenceFreeTextIsJoin(text: string, m: NameMap, fuel: nat)
    requires forall i :: 0 <= i < |SplitLines(text)| ==> !IsReference(SplitLines(text)[i])
    ensures ExpandText(text, m, fuel) == Some(Join(SplitLines(text)))
  {
    UnresolvedTextIsJoin(text, m, fuel);
  }

  /** Expanding such a text a second time changes nothing more. */
  lemma {:induction false} UnresolvedExpansionIdempotent(text: string, m: NameMap, fuel: nat)
    requires NoneResolve(SplitLines(text), m)
    ensures ExpandText(text, m, fuel).Some?
    ensures ExpandText(ExpandText(text, m, fuel).value, m, fuel) == ExpandText(text, m, fuel)
  {
    UnresolvedTextIsJoin(text, m, fuel);
    var lines := SplitLines(text);
    SplitJoin(lines);
    UnresolvedTextIsJoin(Join(lines), m, fuel);
  }

  // Order and indentation

  /** The output starts with the first input line and `"\n"`. */
  lemma {:induction false} ExpandStartsWithFirstLine(text: string, m: NameMap, fuel: nat)
    requires text != [] && ExpandText(text, m, fuel).Some?
    ensures StartsWith(ExpandText(text, m, fuel).value, SplitLines(text)[0] + "\n")
  {
    var lines := SplitLines(text);
    var head := lines[0] + "\n";
    var b := LineBlock(lines[0], m, fuel);
    var r := ExpandLines(lines[1..], m, fuel);
    var out := head + b.value + r.value;
    assert ExpandText(text, m, fuel) == Some(out);
    assert out[..|head|] == head;
  }

  /**
   * The output lines are the input lines in their order, each followed
   * directly by the lines of its own block and then by the next input line.
   */
  lemma {:induction false} ExpandedLinesInterleave(lines: seq<string>, m: NameMap, fuel: nat)
    returns (blocks: seq<seq<string>>, pos: seq<nat>)
    requires ExpandedLines(lines, m, fuel).Some?
    ensures Interleaves(lines, blocks, pos, ExpandedLines(lines, m, fuel).value)
    ensures forall i :: 0 <= i < |lines| ==> BlockLines(lines[i], m, fuel) == Some(blocks[i])
    decreases |lines|
  {
    if lines == [] {
      blocks, pos := [], [];
    } else {
      var b := BlockLines(lines[0], m, fuel).value;
      var rest := ExpandedLines(lines[1..], m, fuel).value;
      var bs, ps := ExpandedLinesInterleave(lines[1..], m, fuel);
      InterleavesCons(lines[0], b, lines[1..], bs, ps, rest);
      assert [lines[0]] + lines[1..] == lines;
      blocks, pos := [b] + bs, [0] + Shift(ps, 1 + |b|);
      forall i | 0 <= i < |lines| ensures BlockLines(lines[i], m, fuel) == Some(blocks[i]) {
        if i > 0 {
          assert lines[i] == lines[1..][i - 1] && blocks[i] == bs[i - 1];
        }
      }
    }
  }

  /**
   * The lines of the expanded text are the lines of `text` in their order and
   * unchanged, each followed directly by the lines of its expansion, which
   * are none for a leaf and for a reference that does not resolve.
   */
  lemma {:induction false} InputLinesInOrder(text: string, m: NameMap, fuel: nat)
    returns (blocks: seq<seq<string>>, pos: seq<nat>)
    requires ExpandText(text, m, fuel).Some?
    ensures Interleaves(SplitLines(text), blocks, pos, SplitLines(ExpandText(text, m, fuel).value))
    ensures forall i :: 0 <= i < |SplitLines(text)| ==> BlockLines(SplitLines(text)[i], m, fuel) == Some(blocks[i])
    ensures forall i :: 0 <= i < |SplitLines(text)| && !Resolves(SplitLines(text)[i], m) ==> blocks[i] == []
  {
    var lines := SplitLines(text);
    ExpandTextLines(text, m, fuel);
    assert ExpandedLines(lines, m, fuel).Some?;
    blocks, pos := ExpandedLinesInterleave(lines, m, fuel);
    forall i | 0 <= i < |lines| && !Resolves(lines[i], m) ensures blocks[i] == [] {
      assert BlockLines(lines[i], m, fuel) == Some(blocks[i]);
    }
  }

  /**
   * The block inserted for a resolved group: the lines of the group's own
   * expansion, each that is not whitespace only with `indent` spaces in
   * front, each followed by `"\n"`.
   */
  lemma {:induction false} GroupIndentation(group: SharedStep, m: NameMap, indent: nat, fuel: nat, inner: string)
    requires fuel > 0 && ExpandText(group.humanReadableSteps, m, fuel - 1) == Some(inner)
    ensures IndentedGroup(group, m, indent, fuel).Some?
    ensures SplitLines(IndentedGroup(group, m, indent, fuel).value) == PrefixLines(SplitLines(inner), Spaces(indent))
    ensures IndentedGroup(group, m, indent, fuel).value == Join(SplitLines(IndentedGroup(group, m, indent, fuel).value))
  {
    var f: nat := fuel - 1;
    var ls := SplitLines(group.humanReadableSteps);
    assert ExpandText(group.humanReadableSteps, m, f) == Some(inner);
    ExpandTextLines(group.humanReadableSteps, m, f);
    var e := ExpandedLines(ls, m, f);
    assert e == Some(SplitLines(inner));
    GroupUnfold(group, m, indent, fuel, ExpandLines(ls, m, f), e);
    GroupAgree(group, m, indent, fuel);
    SplitJoin(PrefixLines(SplitLines(inner), Spaces(indent)));
  }

  // Resolution

  /**
   * The group used is the one for the first candidate, in the order they
   * are yielded, that is a key; there is one exactly when some candidate is
   * a key.
   */
  lemma {:induction false} ResolveFirstKey(name: string, m: NameMap)
    ensures Resolve(name, m).Some? <==> exists i :: 0 <= i < |Candidates(name)| && Candidates(name)[i] in m
    ensures forall i :: (0 <= i < |Candidates(name)| && Candidates(name)[i] in m &&
      (forall j :: 0 <= j < i ==> Candidates(name)[j] !in m)) ==> Resolve(name, m) == Some(Candidates(name)[i])
  {
    var cands := Candidates(name);
    FirstKnownSpec(cands, m);
    forall i | 0 <= i < |cands| && cands[i] in m && (forall j :: 0 <= j < i ==> cands[j] !in m)
      ensures Resolve(name, m) == Some(cands[i])
    {
      FirstKnownAt(cands, m, i);
    }
  }

  /** A name whose stripped form is a key resolves to that key. */
  lemma {:induction false} ResolveStrippedKey(name: string, m: NameMap)
    requires Strip(name) in m
    ensures Resolve(name, m) == Some(Strip(name))
  {
    FirstKnownAt(Candidates(name), m, 0);
  }

  /**
   * For a name on one line: the stripped name if it is a key; otherwise,
   * when the name has a trailing group, the stripped text before its first
   * `(` if that is a key; otherwise nothing.
   */
  lemma {:induction false} ResolveLineName(name: string, m: NameMap)
    requires NoNewline(name)
    ensures Resolve(name, m) ==
      if Strip(name) in m then Some(Strip(name))
      else if HasTrailingGroup(name) && Strip(name[..FirstParen(name)]) in m then Some(Strip(name[..FirstParen(name)]))
      else None
  {
    CandidatesOfLineName(name);
    var s := Strip(name);
    if HasTrailingGroup(name) {
      var t := Strip(name[..FirstParen(name)]);
      assert [s, t][1..] == [t] && [t][1..] == [];
      assert FirstKnown([t], m) == if t in m then Some(t) else None;
      assert FirstKnown([s, t], m) == if s in m then Some(s) else FirstKnown([t], m);
    } else {
      assert [s][1..] == [];
      assert FirstKnown([s], m) == if s in m then Some(s) else None;
    }
  }

  /**
   * The name extracted from one `splitlines()` line holds no newline: it is
   * a suffix of the stripped line, which is a slice of the line.
   */
  lemma {:induction false} LineNameNoNewline(step: string)
    requires NoBreaks(step)
    ensures NoNewline(SharedStepName(step))
  {
    StripSpec(step);
    var s, w := Strip(step), LeadingWhitespace(step);
    var name := SharedStepName(step);
    assert forall i :: 0 <= i < |s| ==> s[i] == step[w + i];
    assert NoNewline(s);
    assert forall i :: 0 <= i < |name| ==> name[i] == s[|s| - |name| + i];
  }

  /**
   * The name on an input line resolves to its stripped form if that is a
   * key, else to the stripped text before its first `(` if it ends in a
   * parenthesised part and that is a key, else to nothing.
   */
  lemma {:induction false} ResolveStepName(step: string, m: NameMap)
    requires NoBreaks(step)
    ensures var name := SharedStepName(step);
      Resolve(name, m) ==
      if Strip(name) in m then Some(Strip(name))
      else if HasTrailingGroup(name) && Strip(name[..FirstParen(name)]) in m then Some(Strip(name[..FirstParen(name)]))
      else None
  {
    LineNameNoNewline(step);
    ResolveLineName(SharedStepName(step), m);
  }

  /** An unresolved reference adds nothing: its line alone is copied, followed by `"\n"`. */
  lemma {:induction false} UnresolvedReferenceAddsNothing(step: string, rest: seq<string>, m: NameMap, fuel: nat)
    requires IsReference(step) && Resolve(SharedStepName(step), m).None?
    ensures LineBlock(step, m, fuel) == Some("")
    ensures ExpandLines([step] + rest, m, fuel) == Cat(Some(step + "\n"), ExpandLines(rest, m, fuel))
  {
    assert ([step] + rest)[1..] == rest;
    assert step + "\n" + "" == step + "\n";
  }

  /**
   * A name made of a base name, a space and a parenthesised group resolves
   * to the base name when the whole name is not a key but the base is. With
   * base `"Login"` and group `"2"` this is `"Login (2)"` against a map
   * holding only `"Login"`; with group
   * `"2) (email: xxx.com, password: 123456"` it is the docstring example,
   * which resolves to `"Login"` even when `"Login (2)"` is a key too.
   */
  lemma {:induction false} GroupedNameResolvesToBase(base: string, group: string, m: NameMap)
    requires base != [] && IsStripped(base) && NoNewline(base) && '(' !in base
    requires NoNewline(group)
    requires base in m && base + " (" + group + ")" !in m
    ensures Resolve(base + " (" + group + ")", m) == Some(base)
  {
    var name := base + " (" + group + ")";
    GroupedNameShape(base, group);
    GroupedNameHead(base, group);
    ResolveLineName(name, m);
  }

  /** Such a name is on one line, is already stripped and has a trailing group. */
  lemma {:induction false} GroupedNameShape(base: string, group: string)
    requires base != [] && IsStripped(base) && NoNewline(base) && NoNewline(group)
    ensures NoNewline(base + " (" + group + ")") && IsStripped(base + " (" + group + ")")
    ensures HasTrailingGroup(base + " (" + group + ")")
  {
    var name := base + " (" + group + ")";
    StripSpec(base);
    assert name[0] == base[0] && name[|name| - 1] == ')' && name[|base| + 1] == '(';
    StripOfUnpadded(name);
    forall k | 0 <= k < |name| ensures name[k] != '\n' {
      if k < |base| {
        assert name[k] == base[k];
      } else if |base| + 1 < k < |name| - 1 {
        assert name[k] == group[k - |base| - 2];
      }
    }
  }

  /** Its first `(` follows the base and a space, so the second candidate is the base. */
  lemma {:induction false} GroupedNameHead(base: string, group: string)
    requires base != [] && IsStripped(base) && '(' !in base
    ensures '(' in base + " (" + group + ")"
    ensures FirstParen(base + " (" + group + ")") == |base| + 1
    ensures Strip((base + " (" + group + ")")[..|base| + 1]) == base
  {
    var name := base + " (" + group + ")";
    var head := base + " ";
    assert name[|base| + 1] == '(';
    assert forall k :: 0 <= k < |base| + 1 ==> name[k] == head[k];
    assert name[..|base| + 1] == head;
    StripSpec(base);
    StripUnpaddedThenBlank(base, " ");
  }

  /** `"Login (2)"` against a map holding only `"Login"` resolves to `"Login"`. */
  lemma {:induction false} LoneLoginResolvesNumbered(base: string, group: string, login: SharedStep)
    requires base == "Login" && group == "2"
    ensures Resolve(base + " (" + group + ")", map[base := login]) == Some(base)
  {
    LoginFacts(base);
    assert |base + " (" + group + ")"| != |base|;
    GroupedNameResolvesToBase(base, group, map[base := login]);
  }

  /**
   * The docstring example, with `"Login"` and `"Login (2)"` both keys,
   * resolves to `"Login"`: the middle candidate the docstring lists is
   * never tried.
   */
  lemma {:induction false} DocstringExampleSkipsNumbered(base: string, group: string, login: SharedStep, numbered: SharedStep)
    requires base == "Login" && group == "2) (email: xxx.com, password: 123456"
    ensures Resolve(base + " (" + group + ")", map[base := login, base + " (2)" := numbered]) == Some(base)
  {
    LoginFacts(base);
    var m := map[base := login, base + " (2)" := numbered];
    assert |base + " (" + group + ")"| != |base| && |base + " (" + group + ")"| != |base + " (2)"|;
    assert forall k :: 0 <= k < |group| ==> group[k] != '\n';
    GroupedNameResolvesToBase(base, group, m);
  }

  lemma {:induction false} LoginFacts(base: string)
    requires base == "Login"
    ensures base != [] && IsStripped(base) && NoNewline(base) && '(' !in base
  {
    assert forall k :: 0 <= k < |base| ==> 'A' <= base[k] <= 'z' && base[k] != '(';
    StripOfUnpadded(base);
  }

  // Fuel

  /** More fuel never changes a finished expansion. */
  lemma {:induction false} ExpandLinesFuelMonotone(lines: seq<string>, m: NameMap, f: nat, g: nat)
    requires f <= g && ExpandLines(lines, m, f).Some?
    ensures ExpandLines(lines, m, g) == ExpandLines(lines, m, f)
    decreases f, 0, |lines| + 2
  {
    if lines != [] {
      LineBlockFuelMonotone(lines[0], m, f, g);
      ExpandLinesFuelMonotone(lines[1..], m, f, g);
    }
  }

  lemma {:induction false} LineBlockFuelMonotone(step: string, m: NameMap, f: nat, g: nat)
    requires f <= g && LineBlock(step, m, f).Some?
    ensures LineBlock(step, m, g) == LineBlock(step, m, f)
    decreases f, 0, 1
  {
    var name := SharedStepName(step);
    if name != "" && Resolve(name, m).Some? {
      GroupFuelMonotone(m[Resolve(name, m).value], m, Indentation(step), f, g);
    }
  }

  lemma {:induction false} GroupFuelMonotone(group: SharedStep, m: NameMap, indent: nat, f: nat, g: nat)
    requires f <= g && IndentedGroup(group, m, indent, f).Some?
    ensures IndentedGroup(group, m, indent, g) == IndentedGroup(group, m, indent, f)
    decreases f, 0, 0
  {
    ExpandTextFuelMonotone(group.humanReadableSteps, m, f - 1, g - 1);
  }

  lemma {:induction false} ExpandTextFuelMonotone(text: string, m: NameMap, f: nat, g: nat)
    requires f <= g && ExpandText(text, m, f).Some?
    ensures ExpandText(text, m, g) == ExpandText(text, m, f)
    decreases f, 1, 0
  {
    ExpandLinesFuelMonotone(SplitLines(text), m, f, g);
  }

  /**
   * A group whose text is a single line referring back to the group itself
   * never finishes, whatever the fuel: the source recurses forever on it.
   */
  lemma {:induction false} SelfReferenceNeverFinishes(step: string, m: NameMap, fuel: nat)
    requires step != [] && NoBreaks(step) && Resolves(step, m)
    requires m[Resolve(SharedStepName(step), m).value].humanReadableSteps == step
    ensures ExpandText(step, m, fuel).None?
    decreases fuel
  {
    SplitLinesSingle(step);
    ExpandSingleLine(step, m, fuel);
    var key := Resolve(SharedStepName(step), m).value;
    ReferenceResolvedTo(SharedStepName(step), m, Indentation(step), fuel, key);
    if fuel > 0 {
      var f: nat := fuel - 1;
      SelfReferenceNeverFinishes(step, m, f);
      assert ExpandText(m[key].humanReadableSteps, m, f).None?;
    }
    assert IndentedGroup(m[key], m, Indentation(step), fuel).None?;
    assert LineBlock(step, m, fuel).None?;
    assert ExpandLines([step], m, fuel).None?;
  }

  /**
   * For instance a group named `n` whose only step is `"Shared step: " + n`
   * never finishes.
   */
  lemma {:induction false} SelfNamedGroupNeverFinishes(n: string, number: int, fuel: nat)
    requires n != [] && NoBreaks(n) && IsStripped(n)
    ensures var step := SharedStepPrefixes[0] + " " + n;
      ExpandText(step, map[n := SharedStep(number, n, step)], fuel).None?
  {
    var step := SharedStepPrefixes[0] + " " + n;
    var m := map[n := SharedStep(number, n, step)];
    SelfNamedStep(n, step, m);
    SelfReferenceNeverFinishes(step, m, fuel);
  }

  /** The line `"Shared step: " + n` is a reference that resolves to `n` in any map holding `n`. */
  lemma {:induction false} SelfNamedStep(n: string, step: string, m: NameMap)
    requires n != [] && NoBreaks(n) && IsStripped(n)
    requires step == SharedStepPrefixes[0] + " " + n && n in m
    ensures step != [] && NoBreaks(step) && Resolves(step, m)
    ensures Resolve(SharedStepName(step), m) == Some(n)
  {
    var rest := " " + n;
    assert step == SharedStepPrefixes[0] + rest;
    StripSpec(n);
    assert rest[|rest| - 1] == n[|n| - 1];
    MarkedLineName(0, rest);
    StripBlankPrefix(" ", n);
    ResolveStrippedKey(rest, m);
    MarkerNoBreaks(0);
    NoBreaksAppend(" ", n);
    NoBreaksAppend(SharedStepPrefixes[0], rest);
  }
}
