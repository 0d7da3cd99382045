/** Shared step records and the name map built from them. */
module SharedSteps {

  /** A shared step group as fetched: its number, its name and its step text. */
  datatype SharedStep = SharedStep(number: int, name: string, humanReadableSteps: string)

  /** The lookup table from a group's name to the group. */
  type NameMap = map<string, SharedStep>

  /**
   * `{shared_step["name"]: shared_step for shared_step in shared_steps}`: the
   * keys are exactly the names that occur, and when a name repeats, the last
   * group with that name is the one kept.
   */
  function BuildNameMap(steps: seq<SharedStep>): (m: NameMap)
    ensures forall k :: k in m <==> exists i :: 0 <= i < |steps| && steps[i].name == k
    ensures forall i :: 0 <= i < |steps| && (forall j :: i < j < |steps| ==> steps[j].name != steps[i].name) ==>
      m[steps[i].name] == steps[i]
  {
    if steps == [] then map[]
    else
      var init, last := steps[..|steps| - 1], steps[|steps| - 1];
      var m := BuildNameMap(init);
      SnocKeys(steps, init, last, m, m[last.name := last]);
      SnocLastWins(steps, init, last, m, m[last.name := last]);
      m[last.name := last]
  }

  /** Adding the last group to the map of the others gives the keys of all of them. */
  lemma {:induction false} SnocKeys(steps: seq<SharedStep>, init: seq<SharedStep>, last: SharedStep, m: NameMap, m': NameMap)
    requires steps != [] && init == steps[..|steps| - 1] && last == steps[|steps| - 1] && m' == m[last.name := last]
    requires forall k :: k in m <==> exists i :: 0 <= i < |init| && init[i].name == k
    ensures forall k :: k in m' <==> exists i :: 0 <= i < |steps| && steps[i].name == k
  {
    forall k ensures k in m' <==> exists i :: 0 <= i < |steps| && steps[i].name == k {
      if k in m && k != last.name {
        var i :| 0 <= i < |init| && init[i].name == k;
        assert steps[i].name == k;
      }
      if k != last.name && (exists i :: 0 <= i < |steps| && steps[i].name == k) {
        var i :| 0 <= i < |steps| && steps[i].name == k;
        assert i != |steps| - 1;
        assert init[i] == steps[i];
      }
      assert steps[|steps| - 1].name == last.name;
    }
  }

  /** Adding the last group keeps, for every name, the last group that has it. */
  lemma {:induction false} SnocLastWins(steps: seq<SharedStep>, init: seq<SharedStep>, last: SharedStep, m: NameMap, m': NameMap)
    requires steps != [] && init == steps[..|steps| - 1] && last == steps[|steps| - 1] && m' == m[last.name := last]
    requires forall i :: 0 <= i < |init| && (forall j :: i < j < |init| ==> init[j].name != init[i].name) ==>
      init[i].name in m && m[init[i].name] == init[i]
    ensures forall i :: 0 <= i < |steps| && (forall j :: i < j < |steps| ==> steps[j].name != steps[i].name) ==>
      steps[i].name in m' && m'[steps[i].name] == steps[i]
  {
    forall i | 0 <= i < |steps| && (forall j :: i < j < |steps| ==> steps[j].name != steps[i].name)
      ensures steps[i].name in m' && m'[steps[i].name] == steps[i]
    {
      if i < |init| {
        assert steps[|steps| - 1].name != steps[i].name;
        assert steps[i] == init[i];
        forall j | i < j < |init| ensures init[j].name != init[i].name {
          assert init[j] == steps[j];
        }
      }
    }
  }
}
