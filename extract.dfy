/** Recognising a reference line and extracting the shared step name it names. */
module Extract {
  import opened Text
  import opened LineText

  /** The localized reference markers, in the order they are tried. */
  const SharedStepPrefixes: seq<string> := ["Shared step:", "共有ステップ:"]

  /** No text starts with both markers, so the order in which they are tried does not matter. */
  lemma {:induction false} PrefixesExclusive(s: string)
    ensures !(StartsWith(s, SharedStepPrefixes[0]) && StartsWith(s, SharedStepPrefixes[1]))
  {
    if StartsWith(s, SharedStepPrefixes[0]) {
      assert s[0] == s[..|SharedStepPrefixes[0]|][0] == 'S';
    }
  }

  /** Neither marker holds a line boundary. */
  lemma {:induction false} MarkerNoBreaks(k: nat)
    requires k < |SharedStepPrefixes|
    ensures NoBreaks(SharedStepPrefixes[k])
  {
    var p := SharedStepPrefixes[k];
    assert forall i :: 0 <= i < |p| ==> (' ' <= p[i] <= 'z' || '\U{3000}' < p[i]);
  }

  /**
   * `s` with the first of `prefixes` that it starts with replaced by `""`
   * once, or `""` when it starts with none of them.
   */
  function RemoveFirstPrefix(s: string, prefixes: seq<string>): string {
    if prefixes == [] then ""
    else if StartsWith(s, prefixes[0]) then ReplaceFirst(s, prefixes[0], "")
    else RemoveFirstPrefix(s, prefixes[1..])
  }

  /**
   * `extract_shared_step_name(step)`: what is left of the stripped line once
   * its marker is taken off, so always a suffix of the stripped line; `""`
   * when the stripped line starts with no marker (see `SharedStepNameSpec`).
   */
  function SharedStepName(step: string): (name: string)
    ensures |name| <= |Strip(step)| && name == Strip(step)[|Strip(step)| - |name|..]
  {
    var s, ps := Strip(step), SharedStepPrefixes;
    RemoveFirstPrefixSuffix(s, ps);
    RemoveFirstPrefix(s, ps)
  }

  /** Removing a marker from the front leaves a suffix. */
  lemma {:induction false} RemoveFirstPrefixSuffix(s: string, prefixes: seq<string>)
    ensures var r := RemoveFirstPrefix(s, prefixes); |r| <= |s| && r == s[|s| - |r|..]
    decreases |prefixes|
  {
    if prefixes != [] {
      if StartsWith(s, prefixes[0]) {
        assert RemoveFirstPrefix(s, prefixes) == s[|prefixes[0]|..];
      } else {
        RemoveFirstPrefixSuffix(s, prefixes[1..]);
      }
    }
  }

  /**
   * The extracted name is the stripped line with its marker taken off (the
   * rest is not stripped again), or `""` when the stripped line starts with
   * no marker. A line that is just a marker therefore names `""`.
   */
  lemma {:induction false} SharedStepNameSpec(step: string)
    ensures forall k :: 0 <= k < |SharedStepPrefixes| && StartsWith(Strip(step), SharedStepPrefixes[k]) ==>
      SharedStepName(step) == Strip(step)[|SharedStepPrefixes[k]|..]
    ensures (forall k :: 0 <= k < |SharedStepPrefixes| ==> !StartsWith(Strip(step), SharedStepPrefixes[k])) ==>
      SharedStepName(step) == ""
  {
    var s, ps := Strip(step), SharedStepPrefixes;
    PrefixesExclusive(s);
    assert ps[1..][1..] == [];
    assert !StartsWith(s, ps[0]) ==> RemoveFirstPrefix(s, ps) == RemoveFirstPrefix(s, ps[1..]);
    assert !StartsWith(s, ps[0]) && !StartsWith(s, ps[1]) ==> RemoveFirstPrefix(s, ps[1..]) == "";
  }

  /** A reference line: one whose extracted name is not empty. */
  predicate IsReference(step: string) {
    SharedStepName(step) != ""
  }

  /**
   * `extract_shared_step_name`: strips the step, then tries the markers in
   * order and returns on the first that matches.
   */
  method ExtractSharedStepName(step: string) returns (name: string)
    ensures name == SharedStepName(step)
  {
    var s := Strip(step);
    for i := 0 to |SharedStepPrefixes|
      invariant forall k :: 0 <= k < i ==> !StartsWith(s, SharedStepPrefixes[k])
    {
      var prefix := SharedStepPrefixes[i];
      if StartsWith(s, prefix) {
        SharedStepNameSpec(step);
        return ReplaceFirst(s, prefix, "");
      }
    }
    SharedStepNameSpec(step);
    return "";
  }

  /** A line that, once stripped, is just a marker is a leaf and not a reference. */
  lemma {:induction false} BareMarkerIsLeaf(step: string, k: nat)
    requires k < |SharedStepPrefixes| && Strip(step) == SharedStepPrefixes[k]
    ensures !IsReference(step)
  {
    assert StartsWith(Strip(step), SharedStepPrefixes[k]);
    SharedStepNameSpec(step);
  }

  /**
   * A marker followed by a rest that does not end in whitespace names
   * exactly that rest, leading whitespace included.
   */
  lemma {:induction false} MarkedLineName(k: nat, rest: string)
    requires k < |SharedStepPrefixes|
    requires rest == [] || !IsWhitespace(rest[|rest| - 1])
    ensures SharedStepName(SharedStepPrefixes[k] + rest) == rest
  {
    var p := SharedStepPrefixes[k];
    var s := p + rest;
    assert s[0] == p[0];
    assert s[|s| - 1] == if rest == [] then p[|p| - 1] else rest[|rest| - 1];
    StripOfUnpadded(s);
    assert s[..|p|] == p;
    SharedStepNameSpec(s);
    assert s[|p|..] == rest;
  }

  /** Indenting a line (as an inserted block does) does not change the name it refers to. */
  lemma {:induction false} PrefixKeepsName(line: string, n: nat)
    ensures SharedStepName(PrefixLine(line, Spaces(n))) == SharedStepName(line)
  {
    if !IsBlank(line) {
      StripBlankPrefix(Spaces(n), line);
    }
  }
}
