/**
 * The shared step expander: resolving a referenced name against the name
 * map and rewriting a step text with every resolvable reference followed by
 * the indented expansion of its group.
 *
 * Python recurses without any cycle guard, so a group that refers to itself
 * never finishes. Here every expansion takes a `fuel` bound on how deeply
 * groups may nest; `None` means the source's recursion would go deeper than
 * that bound (forever, for a cycle).
 */
module Expander {
  import opened Wrappers
  import opened Text
  import opened LineText
  import opened Extract
  import opened NameCandidates
  import opened SharedSteps

  /** The first of `cands` that is a key of `m`, or `None` if none is. */
  function FirstKnown(cands: seq<string>, m: NameMap): (r: Option<string>)
    ensures r.Some? ==> r.value in m
  {
    if cands == [] then None
    else if cands[0] in m then Some(cands[0])
    else FirstKnown(cands[1..], m)
  }

  /**
   * What `FirstKnown` finds is a candidate preceded only by non-keys, and it
   * finds nothing exactly when no candidate is a key.
   */
  lemma {:induction false} FirstKnownSpec(cands: seq<string>, m: NameMap)
    ensures FirstKnown(cands, m).Some? ==> exists i :: (0 <= i < |cands| && cands[i] == FirstKnown(cands, m).value &&
      forall j :: 0 <= j < i ==> cands[j] !in m)
    ensures FirstKnown(cands, m).None? <==> forall i :: 0 <= i < |cands| ==> cands[i] !in m
  {
    if cands != [] && cands[0] !in m {
      FirstKnownSpec(cands[1..], m);
      assert forall i :: 1 <= i < |cands| ==> cands[i] == cands[1..][i - 1];
      if FirstKnown(cands, m).Some? {
        var i :| 0 <= i < |cands[1..]| && cands[1..][i] == FirstKnown(cands, m).value &&
          forall j :: 0 <= j < i ==> cands[1..][j] !in m;
        assert cands[i + 1] == FirstKnown(cands, m).value;
      }
    }
  }

  /** The key of the group a referenced name resolves to: its first candidate that is a key. */
  function Resolve(name: string, m: NameMap): (key: Option<string>)
    ensures key.Some? ==> key.value in m
  {
    FirstKnown(Candidates(name), m)
  }

  /** The candidate at `i` is the first that is a key. */
  lemma {:induction false} FirstKnownAt(cands: seq<string>, m: NameMap, i: nat)
    requires i < |cands| && cands[i] in m
    requires forall k :: 0 <= k < i ==> cands[k] !in m
    ensures FirstKnown(cands, m) == Some(cands[i])
    decreases i
  {
    if i > 0 {
      FirstKnownAt(cands[1..], m, i - 1);
    }
  }

  /** A step line whose reference resolves to a group. */
  predicate Resolves(step: string, m: NameMap) {
    IsReference(step) && Resolve(SharedStepName(step), m).Some?
  }

  /** The indent of a reference line's expansion: two more than the line's own leading whitespace. */
  function Indentation(step: string): nat {
    2 + LeadingWhitespace(step)
  }

  /** Both parts present: their concatenation; otherwise `None`. */
  function Cat(a: Option<string>, b: Option<string>): Option<string> {
    if a.Some? && b.Some? then Some(a.value + b.value) else None
  }

  /**
   * `human_readable_steps_with_shared_steps_expanded(text, m)`: the output is
   * empty only for an empty text, since every line is written out followed
   * by `"\n"` (in full: `LinesAgree`, `InputLinesInOrder`).
   */
  function ExpandText(text: string, m: NameMap, fuel: nat): (r: Option<string>)
    ensures r.Some? ==> (r.value == "" <==> text == "")
    decreases fuel, 1, 0
  {
    ExpandLines(SplitLines(text), m, fuel)
  }

  /** The loop of `human_readable_steps_with_shared_steps_expanded` over the given lines. */
  function ExpandLines(lines: seq<string>, m: NameMap, fuel: nat): Option<string>
    decreases fuel, 0, |lines| + 3
  {
    if lines == [] then Some("")
    else
      var step := lines[0];
      Cat(Cat(Some(step + "\n"), LineBlock(step, m, fuel)), ExpandLines(lines[1..], m, fuel))
  }

  /** What follows a line in the output: the expansion it refers to, or `""` for a leaf. */
  function LineBlock(step: string, m: NameMap, fuel: nat): Option<string>
    decreases fuel, 0, 2
  {
    var name := SharedStepName(step);
    if name == "" then Some("") else ExpandReference(name, m, Indentation(step), fuel)
  }

  /**
   * `expand_shared_step(name, m, indent)`: the group the name resolves to,
   * expanded and indented; `""` when no candidate of the name is a key.
   */
  function ExpandReference(name: string, m: NameMap, indent: nat, fuel: nat): (r: Option<string>)
    ensures (forall i :: 0 <= i < |Candidates(name)| ==> Candidates(name)[i] !in m) ==> r == Some("")
    decreases fuel, 0, 1
  {
    FirstKnownSpec(Candidates(name), m);
    match Resolve(name, m)
    case None => Some("")
    case Some(key) => IndentedGroup(m[key], m, indent, fuel)
  }

  /**
   * The text of `group`, expanded in turn and indented by `indent` spaces;
   * `None` when no fuel is left for going one group deeper.
   */
  function IndentedGroup(group: SharedStep, m: NameMap, indent: nat, fuel: nat): Option<string>
    decreases fuel, 0, 0
  {
    if fuel == 0 then None
    else
      match ExpandText(group.humanReadableSteps, m, fuel - 1)
      case None => None
      case Some(inner) => Some(Indent(inner, Spaces(indent)))
  }

  /** `Cat` is associative. */
  lemma {:induction false} CatAssoc(a: Option<string>, b: Option<string>, c: Option<string>)
    ensures Cat(Cat(a, b), c) == Cat(a, Cat(b, c))
  {
    if a.Some? && b.Some? && c.Some? {
      assert a.value + b.value + c.value == a.value + (b.value + c.value);
    }
  }

  /** `Some("")` is the unit of `Cat`. */
  lemma {:induction false} CatEmpty(a: Option<string>)
    ensures Cat(Some(""), a) == a && Cat(a, Some("")) == a
  {
    if a.Some? {
      assert "" + a.value == a.value && a.value + "" == a.value;
    }
  }

  /** What one line contributes: the line and `"\n"`, then its expansion if it is a reference. */
  lemma {:induction false} ExpandSingleLine(step: string, m: NameMap, fuel: nat)
    ensures ExpandLines([step], m, fuel) == Cat(Some(step + "\n"), LineBlock(step, m, fuel))
  {
    assert [step][1..] == [];
    assert ExpandLines([], m, fuel) == Some("");
    var x := Cat(Some(step + "\n"), LineBlock(step, m, fuel));
    assert ExpandLines([step], m, fuel) == Cat(x, Some(""));
    if x.Some? {
      assert x.value + "" == x.value;
    }
  }

  /**
   * Expansion works line by line: expanding two runs of lines one after the
   * other is expanding each run and concatenating the results.
   */
  lemma {:induction false} ExpandLinesAppend(a: seq<string>, b: seq<string>, m: NameMap, fuel: nat)
    ensures ExpandLines(a + b, m, fuel) == Cat(ExpandLines(a, m, fuel), ExpandLines(b, m, fuel))
    decreases |a|
  {
    if a == [] {
      assert a + b == b;
      CatEmpty(ExpandLines(b, m, fuel));
    } else {
      assert (a + b)[0] == a[0] && (a + b)[1..] == a[1..] + b;
      ExpandLinesAppend(a[1..], b, m, fuel);
      var x := Cat(Some(a[0] + "\n"), LineBlock(a[0], m, fuel));
      assert ExpandLines(a + b, m, fuel) == Cat(x, ExpandLines(a[1..] + b, m, fuel));
      assert ExpandLines(a, m, fuel) == Cat(x, ExpandLines(a[1..], m, fuel));
      CatAssoc(x, ExpandLines(a[1..], m, fuel), ExpandLines(b, m, fuel));
    }
  }

  /** Extending a prefix of `lines`, already expanded to `acc`, by the next line. */
  lemma {:induction false} ExpandPrefixStep(lines: seq<string>, i: nat, acc: string, m: NameMap, fuel: nat)
    requires i < |lines| && ExpandLines(lines[..i], m, fuel) == Some(acc)
    ensures ExpandLines(lines[..i + 1], m, fuel) == Cat(Some(acc + lines[i] + "\n"), LineBlock(lines[i], m, fuel))
  {
    var step := lines[i];
    assert lines[..i + 1] == lines[..i] + [step];
    ExpandLinesAppend(lines[..i], [step], m, fuel);
    ExpandSingleLine(step, m, fuel);
    CatAssoc(Some(acc), Some(step + "\n"), LineBlock(step, m, fuel));
    assert acc + (step + "\n") == acc + step + "\n";
  }

  /** Once a prefix of `lines` fails to expand, so do all of `lines`. */
  lemma {:induction false} ExpandPrefixNone(lines: seq<string>, i: nat, m: NameMap, fuel: nat)
    requires i <= |lines| && ExpandLines(lines[..i], m, fuel).None?
    ensures ExpandLines(lines, m, fuel).None?
  {
    assert lines == lines[..i] + lines[i..];
    ExpandLinesAppend(lines[..i], lines[i..], m, fuel);
  }

  /** A name that resolves to `key` expands to the group stored under `key`. */
  lemma {:induction false} ReferenceResolvedTo(name: string, m: NameMap, indent: nat, fuel: nat, key: string)
    requires Resolve(name, m) == Some(key)
    ensures key in m && ExpandReference(name, m, indent, fuel) == IndentedGroup(m[key], m, indent, fuel)
  {
  }

  /**
   * `expand_shared_step`: loops over the candidates and returns on the first
   * that is a key of the map.
   */
  method ExpandSharedStep(name: string, m: NameMap, indent: nat, fuel: nat) returns (res: Option<string>)
    ensures res == ExpandReference(name, m, indent, fuel)
    decreases fuel, 0, 1
  {
    var cands := CandidateNames(name);
    for i := 0 to |cands|
      invariant forall k :: 0 <= k < i ==> cands[k] !in m
    {
      var candidate := cands[i];
      if candidate !in m {
        assert forall k :: 0 <= k < i + 1 ==> cands[k] !in m;
        continue;
      }
      FirstKnownAt(cands, m, i);
      ReferenceResolvedTo(name, m, indent, fuel, candidate);
      if fuel == 0 {
        return None;
      }
      var f: nat := fuel - 1;
      var inner := ExpandSteps(m[candidate].humanReadableSteps, m, f);
      if inner.None? {
        return None;
      }
      return Some(Indent(inner.value, Spaces(indent)));
    }
    FirstKnownSpec(cands, m);
    return Some("");
  }

  /**
   * The body of the loop of `human_readable_steps_with_shared_steps_expanded`
   * after the line itself is appended: for a reference line, the expansion
   * of the group it names, indented two spaces more than the line.
   */
  method ExpandLine(step: string, m: NameMap, fuel: nat) returns (block: Option<string>)
    ensures block == LineBlock(step, m, fuel)
    decreases fuel, 0, 2
  {
    var name := ExtractSharedStepName(step);
    if name == "" {
      return Some("");
    }
    var indent := 2 + |step| - |LStrip(step)|;
    block := ExpandSharedStep(name, m, indent, fuel);
  }

  /**
   * `human_readable_steps_with_shared_steps_expanded`: appends every line and
   * `"\n"` to the result, and after a reference line the expansion of the
   * group it names.
   */
  method ExpandSteps(text: string, m: NameMap, fuel: nat) returns (res: Option<string>)
    ensures res == ExpandText(text, m, fuel)
    decreases fuel, 1
  {
    var lines := SplitLines(text);
    var acc := "";
    for i := 0 to |lines|
      invariant ExpandLines(lines[..i], m, fuel) == Some(acc)
    {
      var step := lines[i];
      ExpandPrefixStep(lines, i, acc, m, fuel);
      var block := ExpandLine(step, m, fuel);
      if block.None? {
        ExpandPrefixNone(lines, i + 1, m, fuel);
        return None;
      }
      acc := acc + step + "\n" + block.value;
    }
    assert lines[..|lines|] == lines;
    return Some(acc);
  }
}
