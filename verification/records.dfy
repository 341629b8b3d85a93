/** The saved-date record, the in-progress form it is built from, and the
    id-based removal that deletion performs on the saved list. */
module Records {
  import opened Wrappers

  /** The six user-entered fields. `title` is the source's `label` field
      (`label` is a reserved word here). `productId` is a weak reference into
      the catalog; `None` stands for the "decide later" choice (`null`). */
  datatype Form = Form(title: string, eventType: string, date: string,
                       location: string, productId: Option<string>, note: string)

  /** A stored record: the form's fields plus an `id` and a `createdAt`
      timestamp in epoch milliseconds. */
  datatype SavedDate = SavedDate(id: string, title: string, eventType: string,
                                 date: string, location: string,
                                 productId: Option<string>, note: string,
                                 createdAt: int)

  /** The five free-text inputs of the form. */
  datatype Field = Label | EventType | Date | Location | Note

  /** The form's reset value: every text field empty, no bundle chosen. */
  const EmptyForm: Form := Form("", "", "", "", None, "")

  function Get(form: Form, field: Field): string
  {
    match field
    case Label => form.title
    case EventType => form.eventType
    case Date => form.date
    case Location => form.location
    case Note => form.note
  }

  /** The form with one text field replaced by a new value. */
  function SetField(form: Form, field: Field, value: string): (r: Form)
    ensures Get(r, field) == value
    ensures forall g :: g != field ==> Get(r, g) == Get(form, g)
    ensures r.productId == form.productId
  {
    match field
    case Label => form.(title := value)
    case EventType => form.(eventType := value)
    case Date => form.(date := value)
    case Location => form.(location := value)
    case Note => form.(note := value)
  }

  /** A form is determined by its five text fields and its product reference,
      so the framing of `SetField` pins down the whole result. */
  lemma FormExtensionality(a: Form, b: Form)
    requires forall g :: Get(a, g) == Get(b, g)
    requires a.productId == b.productId
    ensures a == b
  {
    assert Get(a, Label) == Get(b, Label) && Get(a, EventType) == Get(b, EventType);
    assert Get(a, Date) == Get(b, Date) && Get(a, Location) == Get(b, Location);
    assert Get(a, Note) == Get(b, Note);
  }

  /** The submit guard: both required fields are non-empty strings
      (an empty string counts as missing). */
  predicate Submittable(form: Form)
  {
    form.title != "" && form.date != ""
  }

  /** The six form fields a record carries. */
  function Content(r: SavedDate): Form
  {
    Form(r.title, r.eventType, r.date, r.location, r.productId, r.note)
  }

  /** The record built from a form by adding an id and a creation time. */
  function Stamp(form: Form, id: string, createdAt: int): (r: SavedDate)
    ensures Content(r) == form
    ensures r.id == id && r.createdAt == createdAt
  {
    SavedDate(id, form.title, form.eventType, form.date, form.location,
              form.productId, form.note, createdAt)
  }

  /** Splitting a record into its form part, id and timestamp loses nothing. */
  lemma StampContent(r: SavedDate)
    ensures Stamp(Content(r), r.id, r.createdAt) == r
  {
  }

  /** The set of ids present in a list. */
  function Ids(list: seq<SavedDate>): set<string>
  {
    set x | x in list :: x.id
  }

  /** No two records in the list share an id. */
  predicate DistinctIds(list: seq<SavedDate>)
  {
    forall i, j :: 0 <= i < j < |list| ==> list[i].id != list[j].id
  }

  /** `a` can be obtained from `b` by dropping elements, keeping the order. */
  predicate SubsequenceOf<T(==)>(a: seq<T>, b: seq<T>)
    decreases |b|
  {
    if |a| == 0 then true
    else if |b| == 0 then false
    else (a[0] == b[0] && SubsequenceOf(a[1..], b[1..])) || SubsequenceOf(a, b[1..])
  }

  /** Deletion by id: every record whose id differs from `id`, each with its
      multiplicity, in the original relative order. */
  function Remove(list: seq<SavedDate>, id: string): (r: seq<SavedDate>)
    ensures forall x :: multiset(r)[x] == (if x.id == id then 0 else multiset(list)[x])
    ensures SubsequenceOf(r, list)
  {
    if |list| == 0 then []
    else
      var rest := Remove(list[1..], id);
      assert list == [list[0]] + list[1..];
      if list[0].id == id then
        rest
      else
        assert ([list[0]] + rest)[1..] == rest;
        [list[0]] + rest
  }

  /** Membership after a delete: a record survives exactly when it was present
      and its id differs from the deleted one, so the id set loses `id` and
      nothing else. */
  lemma RemoveMembers(list: seq<SavedDate>, id: string)
    ensures forall x :: x in Remove(list, id) <==> x in list && x.id != id
    ensures Ids(Remove(list, id)) == Ids(list) - {id}
  {
  }

  /** A subsequence never holds more copies of an element than its source. */
  lemma {:induction false} SubsequenceMultiset<T>(a: seq<T>, b: seq<T>)
    requires SubsequenceOf(a, b)
    ensures multiset(a) <= multiset(b)
    decreases |b|
  {
    if |a| == 0 {
    } else if a[0] == b[0] && SubsequenceOf(a[1..], b[1..]) {
      SubsequenceMultiset(a[1..], b[1..]);
      assert a == [a[0]] + a[1..];
      assert b == [b[0]] + b[1..];
    } else {
      SubsequenceMultiset(a, b[1..]);
      assert b == [b[0]] + b[1..];
    }
  }

  /** `Remove` is the only order-preserving selection from `list` that keeps
      precisely the records whose id differs from `id`: the contract of
      `Remove` characterises the filter completely. */
  lemma {:induction false} RemoveUnique(list: seq<SavedDate>, id: string, r: seq<SavedDate>)
    requires SubsequenceOf(r, list)
    requires forall x :: multiset(r)[x] == (if x.id == id then 0 else multiset(list)[x])
    ensures r == Remove(list, id)
    decreases |list|
  {
    if |list| == 0 {
    } else {
      var x := list[0];
      var tail := list[1..];
      assert list == [x] + tail;
      if x.id == id {
        if |r| > 0 {
          assert r[0] in r;
          assert r[0] != x;
          assert SubsequenceOf(r, tail);
        }
        forall y ensures multiset(r)[y] == (if y.id == id then 0 else multiset(tail)[y]) {
          if y.id != id {
            assert y != x;
          }
        }
        RemoveUnique(tail, id, r);
      } else if |r| > 0 && r[0] == x && SubsequenceOf(r[1..], tail) {
        assert r == [x] + r[1..];
        forall y ensures multiset(r[1..])[y] == (if y.id == id then 0 else multiset(tail)[y]) {
        }
        RemoveUnique(tail, id, r[1..]);
      } else {
        assert multiset(r)[x] == multiset(list)[x] > multiset(tail)[x];
        if |r| > 0 {
          assert SubsequenceOf(r, tail);
          SubsequenceMultiset(r, tail);
        }
        assert false;
      }
    }
  }

  /** Deleting an id that is not present leaves the list as it was. */
  lemma {:induction false} RemoveAbsent(list: seq<SavedDate>, id: string)
    requires id !in Ids(list)
    ensures Remove(list, id) == list
  {
    if |list| > 0 {
      assert list[0] in list;
      assert Ids(list[1..]) <= Ids(list) by {
        assert forall x :: x in list[1..] ==> x in list;
      }
      RemoveAbsent(list[1..], id);
    }
  }

  /** Deleting twice by the same id is the same as deleting once. */
  lemma RemoveIdempotent(list: seq<SavedDate>, id: string)
    ensures Remove(Remove(list, id), id) == Remove(list, id)
  {
    RemoveMembers(list, id);
    RemoveAbsent(Remove(list, id), id);
  }

  /** The tail of a list with distinct ids has distinct ids, none equal to the head's. */
  lemma DistinctTail(list: seq<SavedDate>)
    requires DistinctIds(list) && |list| > 0
    ensures DistinctIds(list[1..])
    ensures list[0].id !in Ids(list[1..])
  {
  }

  /** Any order-preserving selection from a list with distinct ids has distinct ids. */
  lemma {:induction false} SubsequenceKeepsDistinct(a: seq<SavedDate>, b: seq<SavedDate>)
    requires SubsequenceOf(a, b)
    requires DistinctIds(b)
    ensures DistinctIds(a)
    decreases |b|
  {
    if |a| > 0 {
      DistinctTail(b);
      if a[0] == b[0] && SubsequenceOf(a[1..], b[1..]) {
        SubsequenceKeepsDistinct(a[1..], b[1..]);
        SubsequenceMultiset(a[1..], b[1..]);
        forall i, j | 0 <= i < j < |a| ensures a[i].id != a[j].id {
          if i == 0 {
            assert a[j] == a[1..][j - 1];
            assert a[j] in multiset(a[1..]);
            assert a[j] in b[1..];
          } else {
            assert a[i] == a[1..][i - 1] && a[j] == a[1..][j - 1];
          }
        }
      } else {
        SubsequenceKeepsDistinct(a, b[1..]);
      }
    }
  }

  /** Deletion preserves pairwise-distinct ids. */
  lemma RemoveKeepsDistinct(list: seq<SavedDate>, id: string)
    requires DistinctIds(list)
    ensures DistinctIds(Remove(list, id))
  {
    SubsequenceKeepsDistinct(Remove(list, id), list);
  }

  /** In a list with distinct ids, deleting a present id drops exactly one record. */
  lemma {:induction false} RemovePresentShrinksByOne(list: seq<SavedDate>, id: string)
    requires DistinctIds(list)
    requires id in Ids(list)
    ensures |Remove(list, id)| == |list| - 1
  {
    var tail := list[1..];
    assert list == [list[0]] + tail;
    DistinctTail(list);
    if list[0].id == id {
      RemoveAbsent(tail, id);
    } else {
      var x :| x in list && x.id == id;
      var k :| 0 <= k < |list| && list[k] == x;
      assert tail[k - 1] in tail;
      RemovePresentShrinksByOne(tail, id);
    }
  }
}
