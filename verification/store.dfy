/** The `DateSaver` record store: the in-progress form, the saved list
    (newest first) and the three-valued status flag, with one pure function
    per user action. The nondeterministic inputs of the component are
    parameters: the fresh id (`crypto.randomUUID()`) and the clock reading
    (`Date.now()`) of a submit, and the outcome of the storage read at
    start-up. */
module Store {
  import opened Wrappers
  import opened Catalog
  import opened Records

  datatype Status = Idle | Saved | Error

  datatype State = State(form: Form, saved: seq<SavedDate>, status: Status)

  /** What the one-time storage read at start-up produced. `NoWindow` is a
      non-browser render; `ReadFails` is the storage access throwing (storage
      blocked or disabled), in which case the unguarded write on mount throws
      too and the component does not survive its first render; `Missing` is a
      `null` item; `Payload` carries the stored text and what `JSON.parse`
      made of it (`None` when parsing threw). */
  datatype StorageRead =
    | NoWindow
    | ReadFails
    | Missing
    | Payload(text: string, decoded: Option<seq<SavedDate>>)

  /** The list the store starts from: the decoded records when a non-empty
      payload parsed, and the empty list on every other outcome. */
  function Loaded(read: StorageRead): (list: seq<SavedDate>)
    ensures read.Payload? && read.text != "" && read.decoded.Some? ==> list == read.decoded.value
    ensures !(read.Payload? && read.text != "" && read.decoded.Some?) ==> list == []
  {
    match read
    case Payload(text, decoded) =>
      if text == "" then [] else decoded.GetOr([])
    case _ => []
  }

  /** A non-empty start-up list can only come from a non-empty payload that
      decoded to exactly that list; every other read outcome starts empty. */
  lemma LoadedNonEmptyFromPayload(read: StorageRead)
    ensures Loaded(read) != [] ==>
              read.Payload? && read.text != "" && read.decoded == Some(Loaded(read))
  {
  }

  /** Reloading a written list: assuming the stored text is non-empty and its
      decoding yields `list` (the decoding itself is not modelled), the store
      starts from `list` with a blank form and idle status. */
  lemma ReloadRestoresList(list: seq<SavedDate>, text: string)
    requires text != ""
    ensures Init(Payload(text, Some(list))).saved == list
    ensures Init(Payload(text, Some(list))).form == EmptyForm
    ensures Init(Payload(text, Some(list))).status == Idle
  {
  }

  /** The state on mount: empty form, idle status, the loaded list. */
  function Init(read: StorageRead): (s: State)
    ensures s.form == EmptyForm && s.status == Idle
    ensures s.saved == Loaded(read)
  {
    State(EmptyForm, Loaded(read), Idle)
  }

  /** Typing into one text input: that field takes the value, the status
      returns to idle, and nothing else moves. */
  function Edit(s: State, field: Field, value: string): (t: State)
    ensures Get(t.form, field) == value
    ensures forall g :: g != field ==> Get(t.form, g) == Get(s.form, g)
    ensures t.form.productId == s.form.productId
    ensures t.saved == s.saved && t.status == Idle
  {
    State(SetField(s.form, field, value), s.saved, Idle)
  }

  /** Choosing a bundle (or "decide later", `None`): only the product reference
      changes, and the status returns to idle. */
  function Select(s: State, ref: Option<string>): (t: State)
    ensures t.form.productId == ref
    ensures forall g :: Get(t.form, g) == Get(s.form, g)
    ensures t.saved == s.saved && t.status == Idle
  {
    State(s.form.(productId := ref), s.saved, Idle)
  }

  /** Pressing "Save the date" with fresh id `id` and clock reading `now`.
      Without a title or a date the status becomes `Error` and nothing else
      changes; otherwise the stamped form is put in front of the list, the
      form is reset and the status becomes `Saved`. */
  function Submit(s: State, id: string, now: int): (t: State)
    ensures !Submittable(s.form) ==> t.form == s.form && t.saved == s.saved && t.status == Error
    ensures Submittable(s.form) ==>
              && |t.saved| == |s.saved| + 1
              && t.saved[1..] == s.saved
              && Content(t.saved[0]) == s.form
              && t.saved[0].id == id && t.saved[0].createdAt == now
              && t.form == EmptyForm && t.status == Saved
  {
    if !Submittable(s.form) then
      s.(status := Error)
    else
      State(EmptyForm, [Stamp(s.form, id, now)] + s.saved, Saved)
  }

  /** Pressing "Remove" on a record: the saved list is filtered by id; the
      form and the status are untouched. */
  function Delete(s: State, id: string): (t: State)
    ensures forall x :: multiset(t.saved)[x] == (if x.id == id then 0 else multiset(s.saved)[x])
    ensures SubsequenceOf(t.saved, s.saved)
    ensures t.form == s.form && t.status == s.status
  {
    s.(saved := Remove(s.saved, id))
  }

  /** Pressing "Clear form": the form is reset and the status is idle; the
      saved list stays. */
  function Clear(s: State): (t: State)
    ensures forall g :: Get(t.form, g) == ""
    ensures t.form.productId == None
    ensures t.saved == s.saved && t.status == Idle
  {
    State(EmptyForm, s.saved, Idle)
  }

  /** The bundle shown under the form: the catalog entry the form's reference names. */
  function ChosenProduct(products: seq<Product>, s: State): (r: Option<Product>)
    ensures s.form.productId.None? ==> r.None?
    ensures r.None? <==> forall i :: 0 <= i < |products| ==> !Matches(products, i, s.form.productId)
    ensures r.Some? ==> exists i :: Matches(products, i, s.form.productId) && products[i] == r.value
                                   && forall j :: 0 <= j < i ==> !Matches(products, j, s.form.productId)
  {
    Find(products, s.form.productId)
  }

  /** The bundle shown on a saved record's card. */
  function RecordProduct(products: seq<Product>, item: SavedDate): (r: Option<Product>)
    ensures item.productId.None? ==> r.None?
    ensures r.None? <==> forall i :: 0 <= i < |products| ==> !Matches(products, i, item.productId)
    ensures r.Some? ==> exists i :: Matches(products, i, item.productId) && products[i] == r.value
                                   && forall j :: 0 <= j < i ==> !Matches(products, j, item.productId)
  {
    Find(products, item.productId)
  }

  // ---------------------------------------------------------------------------
  // Properties relating several transitions
  // ---------------------------------------------------------------------------

  /** The outcome of a submit is decided by the guard alone: it succeeds exactly
      when both required fields are filled in. */
  lemma SubmitSucceedsIff(s: State, id: string, now: int)
    ensures Submit(s, id, now).status == Saved <==> s.form.title != "" && s.form.date != ""
    ensures Submit(s, id, now).saved != s.saved <==> Submittable(s.form)
  {
  }

  /** A submit with no edit in between after a successful one fails: the reset
      form has neither a title nor a date. */
  lemma SubmitAfterSaveFails(s: State, id1: string, now1: int, id2: string, now2: int)
    requires Submittable(s.form)
    ensures Submit(Submit(s, id1, now1), id2, now2).status == Error
    ensures Submit(Submit(s, id1, now1), id2, now2).saved == Submit(s, id1, now1).saved
  {
  }

  /** Deleting the record a submit just created, under a fresh id, restores the
      saved list that was there before. */
  lemma DeleteUndoesSubmit(s: State, id: string, now: int)
    requires id !in Ids(s.saved)
    ensures Delete(Submit(s, id, now), id).saved == s.saved
  {
    var t := Submit(s, id, now);
    RemoveAbsent(s.saved, id);
    if Submittable(s.form) {
      assert t.saved == [t.saved[0]] + s.saved;
    }
  }

  /** A submit with an id not already in use keeps the ids distinct. */
  lemma SubmitKeepsDistinct(s: State, id: string, now: int)
    requires DistinctIds(s.saved)
    requires id !in Ids(s.saved)
    ensures DistinctIds(Submit(s, id, now).saved)
  {
  }

  /** Re-entering the value a field already holds changes nothing in the form. */
  lemma EditSameValue(s: State, field: Field)
    ensures Edit(s, field, Get(s.form, field)).form == s.form
  {
  }

  /** Two edits of the same field: the later value wins. */
  lemma EditTwice(s: State, field: Field, v1: string, v2: string)
    ensures Edit(Edit(s, field, v1), field, v2) == Edit(s, field, v2)
  {
  }

  /** Edits of different fields commute. */
  lemma EditsCommute(s: State, f: Field, g: Field, v: string, w: string)
    requires f != g
    ensures Edit(Edit(s, f, v), g, w) == Edit(Edit(s, g, w), f, v)
  {
  }

  /** The reference chosen with `Select` is carried verbatim into the record a
      successful submit creates, and the card's lookup resolves it to the first
      catalog entry with that id, or to nothing when the catalog has none: the
      stored reference is kept even when it dangles. */
  lemma SelectThenSubmit(products: seq<Product>, s: State, ref: string, id: string, now: int)
    requires Submittable(s.form)
    ensures Submit(Select(s, Some(ref)), id, now).saved[0].productId == Some(ref)
    ensures (forall p :: p in products ==> p.id != ref) ==>
              RecordProduct(products, Submit(Select(s, Some(ref)), id, now).saved[0]) == None
    ensures forall p :: p in products && p.id == ref && UniqueIds(products) ==>
              RecordProduct(products, Submit(Select(s, Some(ref)), id, now).saved[0]) == Some(p)
  {
    var t := Submit(Select(s, Some(ref)), id, now);
    forall p | p in products && p.id == ref && UniqueIds(products)
      ensures RecordProduct(products, t.saved[0]) == Some(p)
    {
      FindUnique(products, p);
    }
  }
}
