/**
 * The lookup candidates for a referenced name: the stripped name, then the
 * successive results of deleting what the regular expression `\(.*\)$`
 * matches, each stripped.
 */
module NameCandidates {
  import opened Wrappers
  import opened Text

  predicate NoNewline(s: string) {
    forall i :: 0 <= i < |s| ==> s[i] != '\n'
  }

  /**
   * Where `\)$` can match: at a `)` that ends `t`, or at a `)` just before a
   * final `"\n"` (Python's `$` also matches there). At most one index qualifies.
   */
  function ClosingParen(t: string): (j: Option<nat>)
    ensures j.Some? ==> j.value < |t| && t[j.value] == ')'
  {
    if |t| >= 1 && t[|t| - 1] == ')' then Some(|t| - 1)
    else if |t| >= 2 && t[|t| - 1] == '\n' && t[|t| - 2] == ')' then Some(|t| - 2)
    else None
  }

  /**
   * `\(.*\)$` matches in `t` starting at index `i`: a `(` at `i`, the closing
   * `)` after it, and no `"\n"` in between (`.` does not match a newline).
   */
  predicate MatchesAt(t: string, i: nat) {
    var j := ClosingParen(t);
    j.Some? && i < j.value && t[i] == '(' && forall k :: i < k < j.value ==> t[k] != '\n'
  }

  /** The leftmost index at or after `k` at which the pattern matches. */
  function LeftmostMatchFrom(t: string, k: nat): (r: Option<nat>)
    requires k <= |t|
    ensures r.Some? ==> k <= r.value < |t| && MatchesAt(t, r.value)
    ensures r.Some? ==> forall i :: k <= i < r.value ==> !MatchesAt(t, i)
    ensures r.None? ==> forall i :: k <= i < |t| ==> !MatchesAt(t, i)
    decreases |t| - k
  {
    if k == |t| then None
    else if MatchesAt(t, k) then Some(k)
    else LeftmostMatchFrom(t, k + 1)
  }

  /**
   * `re.search(r"\(.*\)$", t)`: the span `[start, end)` of the match Python
   * finds, the leftmost start with the greedy `.*` running to the closing `)`.
   */
  function Search(t: string): (span: Option<(nat, nat)>)
    ensures span.Some? ==> span.value.0 < span.value.1 <= |t| && MatchesAt(t, span.value.0)
    ensures span.Some? ==> span.value.1 == ClosingParen(t).value + 1
    ensures span.Some? ==> forall i :: 0 <= i < span.value.0 ==> !MatchesAt(t, i)
    ensures span.None? <==> forall i :: 0 <= i < |t| ==> !MatchesAt(t, i)
  {
    match LeftmostMatchFrom(t, 0)
    case None => None
    case Some(i) => Some((i, ClosingParen(t).value + 1))
  }

  /**
   * `re.sub(r"\(.*\)$", "", t)`: the match is deleted. A match ends at the
   * end of `t` or just before its final `"\n"`, so no second match can follow
   * it and one deletion is all `re.sub` does.
   */
  function Sub(t: string): (r: string)
    ensures Search(t).Some? ==> |r| < |t|
    ensures Search(t).None? ==> r == t
  {
    match Search(t)
    case None => t
    case Some((i, e)) => t[..i] + t[e..]
  }

  /** The candidates the generator yields after the first one, starting from `t`. */
  function LaterCandidates(t: string): seq<string>
    decreases |t|
  {
    if Search(t).None? then []
    else
      var u := Sub(t);
      [Strip(u)] + LaterCandidates(u)
  }

  /**
   * Everything `shared_step_name_candidate_iterator(name)` yields, in order;
   * it starts with the stripped name.
   */
  function Candidates(name: string): (cs: seq<string>)
    ensures cs != [] && cs[0] == Strip(name)
  {
    [Strip(name)] + LaterCandidates(name)
  }

  lemma {:induction false} LaterCandidatesAreStripped(t: string)
    ensures forall i :: 0 <= i < |LaterCandidates(t)| ==> IsStripped(LaterCandidates(t)[i])
    decreases |t|
  {
    if Search(t).Some? {
      var u := Sub(t);
      StripIsStripped(u);
      LaterCandidatesAreStripped(u);
    }
  }

  /** Every candidate is stripped. */
  lemma {:induction false} CandidatesAreStripped(name: string)
    ensures forall i :: 0 <= i < |Candidates(name)| ==> IsStripped(Candidates(name)[i])
  {
    StripIsStripped(name);
    LaterCandidatesAreStripped(name);
  }

  /** `shared_step_name_candidate_iterator`, its while loop collecting what it yields. */
  method CandidateNames(name: string) returns (yielded: seq<string>)
    ensures yielded == Candidates(name)
  {
    var current := name;
    yielded := [Strip(current)];
    while Search(current).Some?
      invariant yielded + LaterCandidates(current) == Candidates(name)
      decreases |current|
    {
      YieldNext(yielded, current, Candidates(name));
      current := Sub(current);
      yielded := yielded + [Strip(current)];
    }
    assert LaterCandidates(current) == [];
    assert yielded + [] == yielded;
  }

  /** One turn of the loop: the next candidate moves from what is left to what is yielded. */
  lemma {:induction false} YieldNext(yielded: seq<string>, current: string, all: seq<string>)
    requires Search(current).Some? && yielded + LaterCandidates(current) == all
    ensures (yielded + [Strip(Sub(current))]) + LaterCandidates(Sub(current)) == all
  {
    var u := Sub(current);
    assert LaterCandidates(current) == [Strip(u)] + LaterCandidates(u);
    assert yielded + ([Strip(u)] + LaterCandidates(u)) == (yielded + [Strip(u)]) + LaterCandidates(u);
  }

  /** The name holds a `(` and ends with `)`. */
  predicate HasTrailingGroup(name: string) {
    '(' in name && name[|name| - 1] == ')'
  }

  /** The index of the first `(` in `s`. */
  function FirstParen(s: string): (i: nat)
    requires '(' in s
    ensures i < |s| && s[i] == '('
    ensures forall k :: 0 <= k < i ==> s[k] != '('
  {
    if s[0] == '(' then 0 else 1 + FirstParen(s[1..])
  }

  lemma {:induction false} NoParenNoMatch(t: string)
    requires '(' !in t
    ensures Search(t).None?
  {
    forall i | 0 <= i < |t| ensures !MatchesAt(t, i) {
      assert t[i] in t;
    }
  }

  /** With a trailing group, the match runs from the first `(` to the end. */
  lemma {:induction false} SearchOfTrailingGroup(name: string)
    requires NoNewline(name) && HasTrailingGroup(name)
    ensures Search(name) == Some((FirstParen(name), |name|))
  {
    var p, n := FirstParen(name), |name|;
    assert ClosingParen(name) == Some(n - 1);
    assert p < n - 1;
    assert MatchesAt(name, p);
    var r := LeftmostMatchFrom(name, 0);
    assert r.Some?;
    assert r == Some(p);
  }

  /** Without a trailing group the pattern matches nowhere. */
  lemma {:induction false} SearchWithoutTrailingGroup(name: string)
    requires NoNewline(name) && !HasTrailingGroup(name)
    ensures Search(name).None?
  {
    if '(' in name {
      assert ClosingParen(name).None? by {
        if |name| >= 2 { assert name[|name| - 1] != '\n'; }
      }
    } else {
      NoParenNoMatch(name);
    }
  }

  /**
   * For a name without a newline (every name taken from a step line), the
   * pattern can only match from the first `(` to the end, so there are at
   * most two candidates: the stripped name and, when the name holds a `(` and
   * ends with `)`, the stripped text before its first `(`.
   */
  lemma {:induction false} CandidatesOfLineName(name: string)
    requires NoNewline(name)
    ensures HasTrailingGroup(name) ==>
      Candidates(name) == [Strip(name), Strip(name[..FirstParen(name)])]
    ensures !HasTrailingGroup(name) ==> Candidates(name) == [Strip(name)]
  {
    if HasTrailingGroup(name) {
      var p := FirstParen(name);
      SearchOfTrailingGroup(name);
      var u := Sub(name);
      assert u == name[..p];
      assert '(' !in u by {
        forall k | 0 <= k < |u| ensures u[k] != '(' { assert u[k] == name[k]; }
      }
      NoParenNoMatch(u);
      assert LaterCandidates(name) == [Strip(u)];
    } else {
      SearchWithoutTrailingGroup(name);
    }
  }

  /**
   * The example in the generator's documentation: three candidates are
   * promised, but the code yields only two, and `"Login (2)"` is not among them.
   */
  lemma {:induction false} DocstringExampleYieldsTwo(name: string)
    requires name == "Login (2) (email: xxx.com, password: 123456)"
    ensures Candidates(name) == [name, "Login"]
    ensures "Login (2)" !in Candidates(name)
  {
    DocstringExampleRaw(name);
    DocstringExampleUnpadded(name);
    LoginSpaceStripped();
    assert |"Login (2)"| != |name| && |"Login (2)"| != |"Login"|;
  }

  lemma {:induction false} DocstringExampleRaw(name: string)
    requires name == "Login (2) (email: xxx.com, password: 123456)"
    ensures Candidates(name) == [Strip(name), Strip("Login ")]
  {
    DocstringExampleParen(name);
    DocstringExampleHead(name);
    CandidatesOfLineName(name);
  }

  lemma {:induction false} DocstringExampleUnpadded(name: string)
    requires name == "Login (2) (email: xxx.com, password: 123456)"
    ensures Strip(name) == name
  {
    StripOfUnpadded(name);
  }

  lemma {:induction false} LoginSpaceStripped()
    ensures Strip("Login ") == "Login"
  {
    StripUnpaddedThenBlank("Login", " ");
    assert "Login" + " " == "Login ";
  }

  lemma {:induction false} DocstringExampleHead(name: string)
    requires name == "Login (2) (email: xxx.com, password: 123456)"
    ensures name[..6] == "Login "
  {
    assert name[0] == 'L' && name[1] == 'o' && name[2] == 'g' && name[3] == 'i' && name[4] == 'n'
      && name[5] == ' ';
  }

  lemma {:induction false} DocstringExampleParen(name: string)
    requires name == "Login (2) (email: xxx.com, password: 123456)"
    ensures NoNewline(name) && HasTrailingGroup(name) && FirstParen(name) == 6
  {
    assert name[6] == '(';
    assert forall k :: 0 <= k < 6 ==> name[k] != '(';
  }
}
