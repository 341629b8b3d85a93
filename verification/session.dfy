/** Sequences of user actions against the store, and the properties the
    store keeps over a whole session: distinct ids when every submit gets a
    fresh id, and the guarantee that every record it created itself has a
    title and a date. */
module Session {
  import opened Wrappers
  import opened Catalog
  import opened Records
  import opened Store

  /** One user action, with the id and clock reading a submit would draw. */
  datatype Action =
    | EditField(field: Field, value: string)
    | SelectProduct(ref: Option<string>)
    | SubmitForm(id: string, now: int)
    | DeleteRecord(target: string)
    | ClearForm

  function Step(s: State, a: Action): State
  {
    match a
    case EditField(f, v) => Edit(s, f, v)
    case SelectProduct(r) => Select(s, r)
    case SubmitForm(id, now) => Submit(s, id, now)
    case DeleteRecord(id) => Delete(s, id)
    case ClearForm => Clear(s)
  }

  function Run(s: State, actions: seq<Action>): State
    decreases |actions|
  {
    if |actions| == 0 then s else Run(Step(s, actions[0]), actions[1..])
  }

  /** The ids the submits of a session are handed, in order. */
  function SubmitIds(actions: seq<Action>): (ids: seq<string>)
    ensures |ids| <= |actions|
    ensures forall id :: id in ids <==> exists i :: 0 <= i < |actions| && actions[i].SubmitForm? && actions[i].id == id
    decreases |actions|
  {
    if |actions| == 0 then []
    else
      var rest := SubmitIds(actions[1..]);
      assert forall i :: 1 <= i < |actions| ==> actions[i] == actions[1..][i - 1];
      if actions[0].SubmitForm? then [actions[0].id] + rest else rest
  }

  predicate DistinctSeq(ids: seq<string>)
  {
    forall i, j :: 0 <= i < j < |ids| ==> ids[i] != ids[j]
  }

  /** Every submit of the session is handed an id that neither an earlier
      submit nor the starting list uses. The code draws an id only once the
      guard has passed; demanding one for failed submits too loses nothing,
      since a failed submit never uses its id. */
  predicate FreshIds(s: State, actions: seq<Action>)
  {
    DistinctSeq(SubmitIds(actions)) && forall id :: id in SubmitIds(actions) ==> id !in Ids(s.saved)
  }

  /** A step only ever introduces the id of its own submit. */
  lemma StepIds(s: State, a: Action)
    ensures a.SubmitForm? ==> Ids(Step(s, a).saved) <= Ids(s.saved) + {a.id}
    ensures !a.SubmitForm? ==> Ids(Step(s, a).saved) <= Ids(s.saved)
  {
  }

  /** A step keeps the ids distinct when a submit's id is not already in use. */
  lemma StepKeepsDistinct(s: State, a: Action)
    requires DistinctIds(s.saved)
    requires a.SubmitForm? ==> a.id !in Ids(s.saved)
    ensures DistinctIds(Step(s, a).saved)
  {
    match a
    case SubmitForm(id, now) => SubmitKeepsDistinct(s, id, now);
    case DeleteRecord(id) => RemoveKeepsDistinct(s.saved, id);
    case _ =>
  }

  /** A session whose submits are all handed fresh ids never produces two
      records with the same id. */
  lemma {:induction false} RunKeepsDistinct(s: State, actions: seq<Action>)
    requires DistinctIds(s.saved)
    requires FreshIds(s, actions)
    ensures DistinctIds(Run(s, actions).saved)
    decreases |actions|
  {
    if |actions| > 0 {
      var a := actions[0];
      var rest := actions[1..];
      var t := Step(s, a);
      assert actions == [a] + rest;
      var ids := SubmitIds(actions);
      if a.SubmitForm? {
        assert ids == [a.id] + SubmitIds(rest);
        assert a.id in ids;
      } else {
        assert ids == SubmitIds(rest);
      }
      StepKeepsDistinct(s, a);
      StepIds(s, a);
      assert FreshIds(t, rest) by {
        var rids := SubmitIds(rest);
        if a.SubmitForm? {
          forall i, j | 0 <= i < j < |rids| ensures rids[i] != rids[j] {
            assert rids[i] == ids[i + 1] && rids[j] == ids[j + 1];
          }
          forall id | id in rids ensures id !in Ids(t.saved) {
            var k :| 0 <= k < |rids| && rids[k] == id;
            assert ids[k + 1] == id;
            assert ids[0] != ids[k + 1];
          }
        }
      }
      RunKeepsDistinct(t, rest);
    }
  }

  /** Every record in the list after a session either was already there at
      the start or was created by a submit and so has a title and a date: the
      guard is enforced at the creation boundary, loaded records are not
      re-checked. */
  lemma {:induction false} RunRecordsValid(s: State, actions: seq<Action>)
    ensures forall x :: x in Run(s, actions).saved ==>
              x in s.saved || (x.title != "" && x.date != "")
    decreases |actions|
  {
    if |actions| > 0 {
      var t := Step(s, actions[0]);
      match actions[0] {
        case SubmitForm(id, now) =>
          if Submittable(s.form) {
            assert t.saved == [t.saved[0]] + s.saved;
          }
        case DeleteRecord(id) => RemoveMembers(s.saved, id);
        case _ =>
      }
      RunRecordsValid(t, actions[1..]);
    }
  }

  /** A session of edits, selections and clears never touches the saved list. */
  lemma {:induction false} RunWithoutSubmitOrDelete(s: State, actions: seq<Action>)
    requires forall i :: 0 <= i < |actions| ==> !actions[i].SubmitForm? && !actions[i].DeleteRecord?
    ensures Run(s, actions).saved == s.saved
    decreases |actions|
  {
    if |actions| > 0 {
      RunWithoutSubmitOrDelete(Step(s, actions[0]), actions[1..]);
    }
  }

  /** Start from empty storage, save "Alex & Jordan Party" on 2025-06-01, try
      to save an untitled 2025-07-01 entry, then delete the first record. */
  lemma ScenarioCreateRejectDelete(now1: int, now2: int)
    ensures var s0 := Init(Missing);
            var s1 := Run(s0, [EditField(Label, "Alex & Jordan Party"), EditField(Date, "2025-06-01"),
                              SubmitForm("first", now1)]);
            var s2 := Run(s1, [EditField(Date, "2025-07-01"), SubmitForm("second", now2)]);
            var s3 := Run(s2, [DeleteRecord("first")]);
            && |s1.saved| == 1 && s1.status == Saved
            && |s2.saved| == 1 && s2.status == Error
            && s3.saved == []
  {
    var s0 := Init(Missing);
    var first := [EditField(Label, "Alex & Jordan Party"), EditField(Date, "2025-06-01"),
                  SubmitForm("first", now1)];
    var a := Edit(s0, Label, "Alex & Jordan Party");
    var b := Edit(a, Date, "2025-06-01");
    var s1 := Submit(b, "first", now1);
    assert first[1..][1..][1..] == [];
    assert Run(s0, first) == Run(a, first[1..]) == Run(b, first[1..][1..]) == s1;
    var second := [EditField(Date, "2025-07-01"), SubmitForm("second", now2)];
    var c := Edit(s1, Date, "2025-07-01");
    var s2 := Submit(c, "second", now2);
    assert second[1..][1..] == [];
    assert Run(s1, second) == Run(c, second[1..]) == s2;
    var third := [DeleteRecord("first")];
    assert third[1..] == [];
    assert Run(s2, third) == Delete(s2, "first");
    assert s2.saved == [s2.saved[0]];
  }

  /** Storage holding text that does not parse starts the store empty, in the
      idle state, with a blank form. */
  lemma ScenarioMalformedStorage(text: string)
    ensures Init(Payload(text, None)).saved == []
    ensures Init(Payload(text, None)).status == Idle
    ensures Init(Payload(text, None)).form == EmptyForm
  {
  }
}
