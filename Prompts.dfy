/**
  * The prompt store as values: the records, the `state` object, the editor
  * fields `save` reads, the storage slot `load` reads, the lookups and the
  * list filter, and one step function per handler that changes `state`.
  * The `Store` class in module Manager is specified by these step functions.
  */
module Prompts {
  import opened Wrappers
  import opened Text
  import opened Seqs

  /** One stored record. */
  datatype Prompt = Prompt(id: string, title: string, content: string)

  /** The page's `state` object: the records, newest first, and the selection marker. */
  datatype StoreState = StoreState(prompts: seq<Prompt>, selectedId: Option<string>)

  /**
    * The three values `save` reads from the editor before it decides
    * anything, each trimmed: the title's text, the content's markup (which
    * is what gets stored) and the content's text (which is only validated).
    */
  datatype Draft = Draft(title: string, content: string, contentText: string)

  /**
    * What `load` gets from the storage slot: nothing (a missing or empty
    * value, both falsy), a parsed record list, or a read or parse that throws.
    */
  datatype Slot = Absent | Stored(records: seq<Prompt>) | Unreadable

  /** The store before `load` has run. */
  const Empty := StoreState([], None)

  /** The ids of the records, in list order. */
  function Ids(ps: seq<Prompt>): seq<string> {
    seq(|ps|, i requires 0 <= i < |ps| => ps[i].id)
  }

  /** No two records share an id. */
  predicate UniqueIds(ps: seq<Prompt>) {
    forall i, j :: 0 <= i < j < |ps| ==> ps[i].id != ps[j].id
  }

  /** JavaScript truthiness of `state.selectedId`: `null` and `""` are both false. */
  predicate IsSet(selectedId: Option<string>) {
    selectedId.Some? && selectedId.value != []
  }

  /** JavaScript's `a || b` on strings. */
  function JsOr(a: string, b: string): string {
    if a != [] then a else b
  }

  /** Position `i` holds the first record whose id is `id`. */
  predicate FirstWithId(ps: seq<Prompt>, id: string, i: nat) {
    i < |ps| && ps[i].id == id && forall j :: 0 <= j < i ==> ps[j].id != id
  }

  /**
    * `prompts.find((p) => p.id === id)`, giving the position of the record
    * found: the first record with that id, or none when no record has it.
    */
  function FindFirst(ps: seq<Prompt>, id: string): (r: Option<nat>)
    ensures r.Some? ==> FirstWithId(ps, id, r.value)
    ensures r.None? <==> id !in Ids(ps)
  {
    if ps == [] then None
    else if ps[0].id == id then
      assert Ids(ps)[0] == id;
      Some(0)
    else
      assert Ids(ps) == [ps[0].id] + Ids(ps[1..]);
      match FindFirst(ps[1..], id)
      case None => None
      case Some(i) => Some(i + 1)
  }

  /** The character for a decimal digit. */
  function Digit(d: nat): char
    requires d < 10
  {
    ('0' as int + d) as char
  }

  /** `Date.now().toString()`: the clock reading in decimal, never empty. */
  function NewId(now: nat): (id: string)
    ensures id != []
  {
    if now < 10 then [Digit(now)] else NewId(now / 10) + [Digit(now % 10)]
  }

  /** The id is made of decimal digits only. */
  lemma {:induction false} NewIdIsDecimal(now: nat)
    ensures forall i :: 0 <= i < |NewId(now)| ==> '0' <= NewId(now)[i] <= '9'
  {
    if now >= 10 {
      NewIdIsDecimal(now / 10);
    }
  }

  /** Distinct clock readings give distinct ids. */
  lemma {:induction false} NewIdInjective(a: nat, b: nat)
    requires NewId(a) == NewId(b)
    ensures a == b
  {
    var x, y := NewId(a), NewId(b);
    if a >= 10 && b >= 10 {
      assert x[|x| - 1] == y[|y| - 1];
      assert NewId(a / 10) == x[..|x| - 1] == y[..|y| - 1] == NewId(b / 10);
      NewIdInjective(a / 10, b / 10);
    } else if a < 10 && b < 10 {
      assert x[0] == y[0];
    }
  }

  /** `id` is what `NewId` gives for some clock reading before `t`. */
  ghost predicate MintedBefore(id: string, t: nat) {
    exists t': nat :: t' < t && id == NewId(t')
  }

  /** Every record's id was minted at a clock reading before `t`. */
  ghost predicate AllMintedBefore(ps: seq<Prompt>, t: nat) {
    forall i :: 0 <= i < |ps| ==> MintedBefore(ps[i].id, t)
  }

  /**
    * When every stored id was minted at an earlier clock reading, the id
    * minted now is not among them.
    */
  lemma LaterClockGivesFreshId(ps: seq<Prompt>, now: nat)
    requires AllMintedBefore(ps, now)
    ensures NewId(now) !in Ids(ps)
  {
    if NewId(now) in Ids(ps) {
      var i :| 0 <= i < |ps| && Ids(ps)[i] == NewId(now);
      var t: nat :| t < now && ps[i].id == NewId(t);
      NewIdInjective(t, now);
    }
  }

  /** The editor fields as `save` reads them: the title's text, the content's markup and its text. */
  function ReadDraft(titleText: string, contentHtml: string, contentText: string): Draft {
    Draft(Trim(titleText), Trim(contentHtml), Trim(contentText))
  }

  /** The test `save` applies first: neither the trimmed title nor the trimmed content text is empty. */
  predicate Accepts(d: Draft) {
    d.title != [] && d.contentText != []
  }

  /** The record `save` puts in front of the list when nothing is selected. */
  function Created(d: Draft, now: nat): Prompt {
    Prompt(NewId(now), d.title, d.content)
  }

  /** The record `save` writes over `p` when `p` is the selected record. */
  function Edited(p: Prompt, d: Draft): Prompt {
    p.(title := JsOr(d.title, "Sem título"), content := JsOr(d.content, "Sem conteúdo"))
  }

  /** The state after `save()`, with `now` standing for `Date.now()`. */
  function SaveStep(s: StoreState, d: Draft, now: nat): StoreState {
    if !Accepts(d) then s
    else if IsSet(s.selectedId) then
      match FindFirst(s.prompts, s.selectedId.value)
      case None => s
      case Some(i) => s.(prompts := s.prompts[i := Edited(s.prompts[i], d)])
    else
      StoreState([Created(d, now)] + s.prompts, Some(NewId(now)))
  }

  /** The list the remove branch assigns: `prompts.filter((p) => p.id !== id)`. */
  function Without(ps: seq<Prompt>, id: string): (r: seq<Prompt>)
    ensures IsSubsequence(r, ps)
    ensures forall p :: multiset(r)[p] == if p.id != id then multiset(ps)[p] else 0
    ensures id !in Ids(r)
  {
    Filter(ps, (p: Prompt) => p.id != id)
  }

  /** The state after the remove branch of the list handler, for the record id `id`. */
  function RemoveStep(s: StoreState, id: string): StoreState {
    s.(prompts := Without(s.prompts, id))
  }

  /** The state after `newPrompt()`. */
  function NewPromptStep(s: StoreState): StoreState {
    s.(selectedId := None)
  }

  /**
    * The state after `load()`: the stored list (or an empty one when nothing
    * is stored) with no selection; when reading or parsing throws, the
    * handler catches it before either assignment and the state stays as it was.
    */
  function LoadStep(s: StoreState, slot: Slot): StoreState {
    match slot
    case Absent => StoreState([], None)
    case Stored(records) => StoreState(records, None)
    case Unreadable => s
  }

  /** The test `renderList(filterText)` applies to each record. */
  predicate Matches(filterText: string, p: Prompt) {
    Contains(ToLower(p.title), Trim(ToLower(filterText)))
  }

  /**
    * The records `renderList(filterText)` shows: exactly those whose
    * lower-cased title contains the lower-cased, trimmed filter text, in
    * store order and with their multiplicity.
    */
  function Visible(ps: seq<Prompt>, filterText: string): (r: seq<Prompt>)
    ensures IsSubsequence(r, ps)
    ensures forall p :: multiset(r)[p] == if Matches(filterText, p) then multiset(ps)[p] else 0
  {
    Filter(ps, (p: Prompt) => Matches(filterText, p))
  }

  /** The selection, when there is one, names a record in the list. */
  predicate SelectionResolves(s: StoreState) {
    s.selectedId.Some? ==> s.selectedId.value in Ids(s.prompts)
  }

  // ----- save -----

  /**
    * A title text or a content text that is empty or all whitespace leaves
    * the whole state as it was, whatever the content markup.
    */
  lemma SaveRejectsBlank(s: StoreState, titleText: string, contentHtml: string, contentText: string, now: nat)
    requires IsBlank(titleText) || IsBlank(contentText)
    ensures SaveStep(s, ReadDraft(titleText, contentHtml, contentText), now) == s
  {
  }

  /**
    * With no selection, `save` puts one new record at index 0, shifts the old
    * records up by one unchanged, and selects the new record; the new
    * selection is truthy, so the next `save` edits that record.
    */
  lemma SaveWithoutSelectionPrepends(s: StoreState, d: Draft, now: nat)
    requires Accepts(d) && !IsSet(s.selectedId)
    ensures var r := SaveStep(s, d, now);
      && |r.prompts| == |s.prompts| + 1
      && r.prompts[0] == Prompt(NewId(now), d.title, d.content)
      && r.prompts[1..] == s.prompts
      && r.selectedId == Some(r.prompts[0].id)
      && IsSet(r.selectedId)
  {
  }

  /**
    * With a selection that names a record, `save` rewrites the title and the
    * content of the first record with that id and nothing else: the length,
    * the order, every id, every other record and the selection stay.
    */
  lemma {:induction false} SaveWithSelectionEditsFirstMatch(s: StoreState, d: Draft, now: nat, i: nat)
    requires Accepts(d) && IsSet(s.selectedId)
    requires FirstWithId(s.prompts, s.selectedId.value, i)
    ensures var r := SaveStep(s, d, now);
      && |r.prompts| == |s.prompts|
      && Ids(r.prompts) == Ids(s.prompts)
      && r.prompts[i] == Prompt(s.prompts[i].id, d.title, JsOr(d.content, "Sem conteúdo"))
      && (forall j :: 0 <= j < |s.prompts| && j != i ==> r.prompts[j] == s.prompts[j])
      && r.selectedId == s.selectedId
  {
    var found := FindFirst(s.prompts, s.selectedId.value);
    assert found.Some? by {
      assert Ids(s.prompts)[i] == s.selectedId.value;
    }
    assert found.value == i;
  }

  /**
    * A selection that names no record (the record was removed, say) makes
    * `save` a no-op: a stale selection never brings a record back.
    */
  lemma SaveWithStaleSelectionChangesNothing(s: StoreState, d: Draft, now: nat)
    requires IsSet(s.selectedId) && s.selectedId.value !in Ids(s.prompts)
    ensures SaveStep(s, d, now) == s
  {
  }

  /** Every record has a non-empty title and a non-empty content. */
  predicate FieldsNonEmpty(ps: seq<Prompt>) {
    forall i :: 0 <= i < |ps| ==> ps[i].title != [] && ps[i].content != []
  }

  /**
    * `save` never leaves a record with an empty title or content, as long as
    * non-empty content text comes with non-empty content markup (which the
    * browser guarantees, and the model takes as a hypothesis). An edit falls
    * back to "Sem título" and "Sem conteúdo"; a new record gets a title that
    * passed the blank test.
    */
  lemma SaveKeepsFieldsNonEmpty(s: StoreState, d: Draft, now: nat)
    requires FieldsNonEmpty(s.prompts)
    requires d.contentText != [] ==> d.content != []
    ensures FieldsNonEmpty(SaveStep(s, d, now).prompts)
  {
    var ps := SaveStep(s, d, now).prompts;
    if Accepts(d) && IsSet(s.selectedId) && ps != s.prompts {
      var k := FindFirst(s.prompts, s.selectedId.value).value;
      assert ps == s.prompts[k := Edited(s.prompts[k], d)];
    } else if Accepts(d) && !IsSet(s.selectedId) {
      assert ps == [Created(d, now)] + s.prompts;
    }
  }

  /** `save` keeps ids unique as long as the minted id is not already in use. */
  lemma SavePreservesUniqueIds(s: StoreState, d: Draft, now: nat)
    requires UniqueIds(s.prompts) && NewId(now) !in Ids(s.prompts)
    ensures UniqueIds(SaveStep(s, d, now).prompts)
  {
    var ps := SaveStep(s, d, now).prompts;
    if Accepts(d) && IsSet(s.selectedId) && ps != s.prompts {
      var k := FindFirst(s.prompts, s.selectedId.value).value;
      assert ps == s.prompts[k := Edited(s.prompts[k], d)];
      forall i, j | 0 <= i < j < |ps|
        ensures ps[i].id != ps[j].id
      {
        assert ps[i].id == s.prompts[i].id && ps[j].id == s.prompts[j].id;
      }
    } else if Accepts(d) && !IsSet(s.selectedId) {
      PrependKeepsUniqueIds(Created(d, now), s.prompts);
    }
  }

  /** Putting a record with an unused id in front keeps ids unique. */
  lemma PrependKeepsUniqueIds(p: Prompt, ps: seq<Prompt>)
    requires UniqueIds(ps) && p.id !in Ids(ps)
    ensures UniqueIds([p] + ps)
  {
    var r := [p] + ps;
    forall i, j | 0 <= i < j < |r|
      ensures r[i].id != r[j].id
    {
      assert Ids(ps)[j - 1] == r[j].id;
    }
  }

  /**
    * `save` either keeps every id in place or, when it creates a record,
    * puts the new id in front of them.
    */
  lemma SaveKeepsIdsOrAddsNew(s: StoreState, d: Draft, now: nat)
    ensures Ids(SaveStep(s, d, now).prompts)
      == if Accepts(d) && !IsSet(s.selectedId) then [NewId(now)] + Ids(s.prompts) else Ids(s.prompts)
  {
    var ps := SaveStep(s, d, now).prompts;
    if Accepts(d) && IsSet(s.selectedId) && ps != s.prompts {
      var k := FindFirst(s.prompts, s.selectedId.value).value;
      assert ps == s.prompts[k := Edited(s.prompts[k], d)];
    }
  }

  /** `save` never leaves a selection that names no record. */
  lemma SavePreservesSelectionResolves(s: StoreState, d: Draft, now: nat)
    requires SelectionResolves(s)
    ensures SelectionResolves(SaveStep(s, d, now))
  {
    var r := SaveStep(s, d, now);
    if Accepts(d) && IsSet(s.selectedId) && r != s {
      var i := FindFirst(s.prompts, s.selectedId.value).value;
      assert Ids(r.prompts)[i] == s.selectedId.value;
    } else if Accepts(d) && !IsSet(s.selectedId) {
      assert Ids(r.prompts)[0] == NewId(now);
    }
  }

  // ----- remove -----

  /** Removing an id no record has leaves the list as it was. */
  lemma RemoveAbsentIdKeepsList(s: StoreState, id: string)
    requires id !in Ids(s.prompts)
    ensures RemoveStep(s, id) == s
  {
    forall i | 0 <= i < |s.prompts|
      ensures s.prompts[i].id != id
    {
      assert Ids(s.prompts)[i] == s.prompts[i].id;
    }
    FilterKeepsAll(s.prompts, (p: Prompt) => p.id != id);
  }

  /** With unique ids, removing an id that is present drops exactly one record. */
  lemma {:induction false} RemovePresentIdDropsOne(ps: seq<Prompt>, id: string)
    requires UniqueIds(ps) && id in Ids(ps)
    ensures |Without(ps, id)| == |ps| - 1
  {
    assert Ids(ps) == [ps[0].id] + Ids(ps[1..]);
    if ps[0].id == id {
      forall i | 0 <= i < |ps| - 1
        ensures Ids(ps[1..])[i] != id
      {
        assert ps[i + 1].id != ps[0].id;
      }
      RemoveAbsentIdKeepsList(StoreState(ps[1..], None), id);
    } else {
      RemovePresentIdDropsOne(ps[1..], id);
    }
  }

  /** Removing records keeps every title and content non-empty. */
  lemma RemoveKeepsFieldsNonEmpty(s: StoreState, id: string)
    requires FieldsNonEmpty(s.prompts)
    ensures FieldsNonEmpty(RemoveStep(s, id).prompts)
  {
    var ps := RemoveStep(s, id).prompts;
    forall i | 0 <= i < |ps|
      ensures ps[i].title != [] && ps[i].content != []
    {
      assert multiset(ps)[ps[i]] > 0;
      assert ps[i] in s.prompts;
    }
  }

  /** Removing records keeps ids unique. */
  lemma RemovePreservesUniqueIds(s: StoreState, id: string)
    requires UniqueIds(s.prompts)
    ensures UniqueIds(RemoveStep(s, id).prompts)
  {
    SubsequenceKeepsUniqueIds(Without(s.prompts, id), s.prompts);
  }

  /** A subsequence of a list with unique ids has unique ids. */
  lemma {:induction false} SubsequenceKeepsUniqueIds(r: seq<Prompt>, ps: seq<Prompt>)
    requires IsSubsequence(r, ps) && UniqueIds(ps)
    ensures UniqueIds(r)
    ensures forall i :: 0 <= i < |r| ==> r[i] in ps
    decreases |ps|
  {
    if r != [] {
      if r[0] == ps[0] {
        SubsequenceKeepsUniqueIds(r[1..], ps[1..]);
        forall j | 0 < j < |r|
          ensures r[0].id != r[j].id
        {
          assert r[j] == r[1..][j - 1];
          var k :| 0 <= k < |ps[1..]| && ps[1..][k] == r[j];
          assert ps[k + 1] == r[j];
        }
      } else {
        SubsequenceKeepsUniqueIds(r, ps[1..]);
      }
    }
  }

  /**
    * Removing the selected record leaves a selection that names no record:
    * the list handler does not clear `selectedId`.
    */
  lemma RemovingSelectedLeavesDanglingSelection(s: StoreState)
    requires s.selectedId.Some?
    ensures !SelectionResolves(RemoveStep(s, s.selectedId.value))
  {
  }

  // ----- newPrompt and load -----

  /** `newPrompt` clears the selection and keeps the list. */
  lemma NewPromptClearsSelection(s: StoreState)
    ensures NewPromptStep(s).prompts == s.prompts
    ensures NewPromptStep(s).selectedId == None
    ensures SelectionResolves(NewPromptStep(s))
  {
  }

  /** Whenever `load` gets past reading and parsing, no record is selected afterwards. */
  lemma LoadClearsSelection(s: StoreState, slot: Slot)
    requires !slot.Unreadable?
    ensures LoadStep(s, slot).selectedId == None
    ensures LoadStep(s, slot).prompts == if slot.Stored? then slot.records else []
  {
  }

  /**
    * At start-up `load` runs on an empty store, so an unreadable slot yields
    * an empty store with no selection, as a missing one does.
    */
  lemma StartupLoadIsFailSoft(slot: Slot)
    ensures LoadStep(Empty, slot) == if slot.Stored? then StoreState(slot.records, None) else Empty
  {
  }

  // ----- renderList -----

  /** An empty or all-whitespace filter shows every record, in store order. */
  lemma BlankFilterShowsAll(ps: seq<Prompt>, filterText: string)
    requires IsBlank(filterText)
    ensures Visible(ps, filterText) == ps
  {
    ToLowerKeepsBlank(filterText);
    forall i | 0 <= i < |ps|
      ensures Matches(filterText, ps[i])
    {
      ContainsEmpty(ToLower(ps[i].title));
    }
    FilterKeepsAll(ps, (p: Prompt) => Matches(filterText, p));
  }

  /** Whatever the filter, the records shown are a subsequence of the full list. */
  lemma FilteredIsSubsequenceOfUnfiltered(ps: seq<Prompt>, filterText: string)
    ensures IsSubsequence(Visible(ps, filterText), Visible(ps, ""))
  {
    assert IsBlank("");
    BlankFilterShowsAll(ps, "");
  }
}
