/** The static transform list of `Ros_StaticTransformBroadcaster_Send`
    (src/StaticTransformBroadcaster.c): each transform is inserted into a
    bounded list keyed by child frame, replacing the entry with the same child
    frame if there is one. Publishing is a parameter. */
module StaticTf {
  import opened Wrappers

  /** `STATIC_TRANSFORM_BROADCASTER_MAX_TF_COUNT`: the capacity the list is
      allocated with. */
  const Capacity: nat := 16

  /** A stamped transform; only the child frame is looked at. */
  datatype Transform = Transform(childFrameId: string, frameId: string, pose: seq<real>)

  /** Appending to a full list is fatal (`SUBCODE_FAIL_STATIC_TRANSFORM_MEM_LIMIT`). */
  datatype TfFatal = MemoryLimitReached

  /** The child frames stored in a list. */
  function Ids(s: seq<Transform>): set<string>
  {
    set j | 0 <= j < |s| :: s[j].childFrameId
  }

  /** No child frame is stored twice. */
  predicate Distinct(s: seq<Transform>)
  {
    forall a, b :: 0 <= a < b < |s| ==> s[a].childFrameId != s[b].childFrameId
  }

  /** The inner search loop: the first entry whose child frame is `id`. */
  function FindFirst(s: seq<Transform>, id: string): (r: Option<nat>)
    ensures r.Some? ==> r.value < |s| && s[r.value].childFrameId == id
    ensures r.Some? ==> forall j :: 0 <= j < r.value ==> s[j].childFrameId != id
    ensures r.None? <==> id !in Ids(s)
  {
    if |s| == 0 then None
    else if s[0].childFrameId == id then Some(0)
    else
      match FindFirst(s[1..], id)
      case None =>
        assert forall j :: 1 <= j < |s| ==> s[j] == s[1..][j - 1];
        None
      case Some(k) => Some(k + 1)
  }

  /** One iteration of the outer loop: overwrite the first entry with the same
      child frame, or append, or fail when the list is full. */
  function Upsert(s: seq<Transform>, t: Transform): (r: Result<seq<Transform>, TfFatal>)
    ensures r.Failure? <==> t.childFrameId !in Ids(s) && |s| >= Capacity
    ensures r.Success? ==> Ids(r.value) == Ids(s) + {t.childFrameId}
    ensures r.Success? && t.childFrameId in Ids(s) ==>
              |r.value| == |s|
              && exists m :: 0 <= m < |s| && r.value[m] == t && s[m].childFrameId == t.childFrameId
                   && forall j :: 0 <= j < |s| && j != m ==> r.value[j] == s[j]
    ensures r.Success? && t.childFrameId !in Ids(s) ==> |r.value| == |s| + 1 && r.value[|s|] == t
    ensures r.Success? ==> forall j :: 0 <= j < |s| ==> r.value[j].childFrameId == s[j].childFrameId
    ensures r.Success? ==> forall j :: 0 <= j < |s| && s[j].childFrameId != t.childFrameId ==> r.value[j] == s[j]
    ensures r.Success? && Distinct(s) ==> Distinct(r.value)
  {
    match FindFirst(s, t.childFrameId)
    case Some(m) =>
      var u := s[m := t];
      assert Ids(u) == Ids(s) by {
        forall id | id in Ids(s) ensures id in Ids(u) {
          var j :| 0 <= j < |s| && s[j].childFrameId == id;
          assert u[j].childFrameId == id;
        }
      }
      Success(u)
    case None =>
      if |s| < Capacity then
        var u := s + [t];
        assert Ids(u) == Ids(s) + {t.childFrameId} by {
          forall id | id in Ids(s) ensures id in Ids(u) {
            var j :| 0 <= j < |s| && s[j].childFrameId == id;
            assert u[j].childFrameId == id;
          }
          assert u[|s|].childFrameId == t.childFrameId;
        }
        Success(u)
      else Failure(MemoryLimitReached)
  }

  /** The input at `i` is the last one with its child frame. */
  predicate LastOfItsFrame(msgs: seq<Transform>, i: nat)
    requires i < |msgs|
  {
    forall k :: i < k < |msgs| ==> msgs[k].childFrameId != msgs[i].childFrameId
  }

  /** `Ros_StaticTransformBroadcaster_Send`: the inputs are applied in order,
      then the whole list is published (`publishOk` is whether that worked). On
      a list that keeps child frames distinct, as every list built by this
      function does:
      - the stored child frames become those of the list and the inputs;
      - the run fails exactly when they would exceed the capacity;
      - an entry no input names stays where it was, unchanged;
      - the last input for each child frame is the one stored. */
  method Send(list: seq<Transform>, msgs: seq<Transform>, publishOk: bool)
    returns (r: Result<seq<Transform>, TfFatal>, published: bool)
    requires |list| <= Capacity
    ensures published <==> r.Success? && publishOk
    ensures r.Success? ==> Ids(r.value) == Ids(list) + Ids(msgs) && |r.value| <= Capacity
    ensures r.Success? ==> |list| <= |r.value|
    ensures r.Success? ==> forall j :: 0 <= j < |list| ==> r.value[j].childFrameId == list[j].childFrameId
    ensures r.Success? ==> forall j :: 0 <= j < |list| && list[j].childFrameId !in Ids(msgs) ==> r.value[j] == list[j]
    ensures Distinct(list) ==> (r.Success? <==> |Ids(list) + Ids(msgs)| <= Capacity)
    ensures Distinct(list) && r.Success? ==>
              Distinct(r.value)
              && forall i :: 0 <= i < |msgs| && LastOfItsFrame(msgs, i) ==> msgs[i] in r.value
  {
    var cur := list;
    var i := 0;
    assert msgs[..0] == [];
    while i < |msgs|
      invariant i <= |msgs|
      invariant Progress(list, msgs, i, cur)
    {
      var next := Upsert(cur, msgs[i]);
      if next.Failure? {
        if Distinct(list) {
          FailureOverflows(cur, Ids(list) + Ids(msgs), msgs[i].childFrameId);
          IdsPrefix(msgs, i);
        }
        return Failure(MemoryLimitReached), false;
      }
      Step(list, msgs, i, cur, next.value);
      cur := next.value;
      i := i + 1;
    }
    assert msgs[..i] == msgs;
    if Distinct(list) {
      DistinctCard(cur);
    }
    r := Success(cur);
    published := publishOk;
  }

  /** What holds of the list after the first `i` inputs. */
  predicate Progress(list: seq<Transform>, msgs: seq<Transform>, i: nat, cur: seq<Transform>)
    requires i <= |msgs|
  {
    && |list| <= |cur| <= Capacity
    && Ids(cur) == Ids(list) + Ids(msgs[..i])
    && (forall j :: 0 <= j < |list| ==> cur[j].childFrameId == list[j].childFrameId)
    && (forall j :: 0 <= j < |list| && list[j].childFrameId !in Ids(msgs[..i]) ==> cur[j] == list[j])
    && (Distinct(list) ==> Distinct(cur))
    && (Distinct(list) ==> forall k :: 0 <= k < i && LastOfItsFrame(msgs[..i], k) ==> msgs[k] in cur)
  }

  lemma Step(list: seq<Transform>, msgs: seq<Transform>, i: nat, cur: seq<Transform>, next: seq<Transform>)
    requires i < |msgs| && Progress(list, msgs, i, cur)
    requires Upsert(cur, msgs[i]) == Success(next)
    ensures Progress(list, msgs, i + 1, next)
  {
    assert msgs[..i + 1] == msgs[..i] + [msgs[i]];
    IdsAppend(msgs[..i], msgs[i]);
    assert Ids(next) == Ids(list) + Ids(msgs[..i + 1]);
    forall j | 0 <= j < |list| && list[j].childFrameId !in Ids(msgs[..i + 1])
      ensures next[j] == list[j]
    {
      assert cur[j] == list[j];
    }
    if Distinct(list) {
      KeepsLastInputs(cur, next, msgs, i);
    }
  }

  // ---------------------------------------------------------------------
  // Helper facts

  lemma IdsAppend(s: seq<Transform>, t: Transform)
    ensures Ids(s + [t]) == Ids(s) + {t.childFrameId}
  {
    var u := s + [t];
    forall id | id in Ids(s) ensures id in Ids(u) {
      var j :| 0 <= j < |s| && s[j].childFrameId == id;
      assert u[j].childFrameId == id;
    }
    assert u[|s|].childFrameId == t.childFrameId;
  }

  lemma IdsPrefix(msgs: seq<Transform>, i: nat)
    requires i < |msgs|
    ensures Ids(msgs[..i]) + {msgs[i].childFrameId} <= Ids(msgs)
  {
    forall id | id in Ids(msgs[..i]) ensures id in Ids(msgs) {
      var j :| 0 <= j < i && msgs[..i][j].childFrameId == id;
      assert msgs[j].childFrameId == id;
    }
  }

  /** A list without repeated child frames stores as many frames as entries. */
  lemma {:induction false} DistinctCard(s: seq<Transform>)
    requires Distinct(s)
    ensures |Ids(s)| == |s|
  {
    if s != [] {
      var init := s[..|s| - 1];
      DistinctCard(init);
      assert s == init + [s[|s| - 1]];
      IdsAppend(init, s[|s| - 1]);
      assert s[|s| - 1].childFrameId !in Ids(init);
    }
  }

  lemma {:induction false} SubsetCard(a: set<string>, b: set<string>)
    requires a <= b
    ensures |a| <= |b|
  {
    if a != {} {
      var x :| x in a;
      SubsetCard(a - {x}, b - {x});
    }
  }

  /** A full distinct list plus one more child frame is more than the capacity. */
  lemma FailureOverflows(cur: seq<Transform>, all: set<string>, id: string)
    requires Distinct(cur) && |cur| >= Capacity && id !in Ids(cur)
    requires Ids(cur) + {id} <= all
    ensures |all| > Capacity
  {
    DistinctCard(cur);
    SubsetCard(Ids(cur) + {id}, all);
  }

  /** The step of the last-input-wins invariant. */
  lemma KeepsLastInputs(cur: seq<Transform>, next: seq<Transform>, msgs: seq<Transform>, i: nat)
    requires i < |msgs| && Distinct(cur)
    requires Upsert(cur, msgs[i]) == Success(next)
    requires forall k :: 0 <= k < i && LastOfItsFrame(msgs[..i], k) ==> msgs[k] in cur
    ensures forall k :: 0 <= k < i + 1 && LastOfItsFrame(msgs[..i + 1], k) ==> msgs[k] in next
  {
    var t := msgs[i];
    forall k | 0 <= k < i + 1 && LastOfItsFrame(msgs[..i + 1], k)
      ensures msgs[k] in next
    {
      if k == i {
        if t.childFrameId in Ids(cur) {
          var m :| 0 <= m < |cur| && next[m] == t && cur[m].childFrameId == t.childFrameId;
        } else {
          assert next[|cur|] == t;
        }
      } else {
        assert msgs[..i + 1][i] == t;
        assert msgs[k].childFrameId != t.childFrameId;
        assert LastOfItsFrame(msgs[..i], k);
        var j :| 0 <= j < |cur| && cur[j] == msgs[k];
        assert next[j] == cur[j];
      }
    }
  }
}
