/**
  * The page's `state` object and the handlers that change it, as a class
  * whose fields the methods update in place. Each method is specified by
  * the matching step function of module Prompts, whose properties are
  * proved there.
  */
module Manager {
  import opened Wrappers
  import opened Text
  import opened Prompts

  /** Which notice `save` shows: the "empty fields" one or the "saved" one. */
  datatype SaveOutcome = Rejected | Saved

  class Store {
    var prompts: seq<Prompt>
    var selectedId: Option<string>

    /** The fields as a value. */
    function State(): StoreState
      reads this
    {
      StoreState(prompts, selectedId)
    }

    /** `state` as declared, followed by the `load()` call in `init`. */
    constructor Init(slot: Slot)
      ensures State() == LoadStep(Empty, slot)
      ensures selectedId == None && SelectionResolves(State())
    {
      prompts := [];
      selectedId := None;
      new;
      Load(slot);
    }

    /**
      * `save()`: with the editor's title text, content markup and content
      * text, and `now` the clock reading. Rejects a blank title or content
      * text; edits the selected record when the selection is set, creates
      * and selects a new record when it is not.
      */
    method Save(titleText: string, contentHtml: string, contentText: string, now: nat)
      returns (outcome: SaveOutcome)
      modifies this
      ensures State() == SaveStep(old(State()), ReadDraft(titleText, contentHtml, contentText), now)
      ensures outcome == if IsBlank(titleText) || IsBlank(contentText) then Rejected else Saved
      ensures UniqueIds(old(prompts)) && NewId(now) !in Ids(old(prompts)) ==> UniqueIds(prompts)
      ensures SelectionResolves(old(State())) ==> SelectionResolves(State())
      ensures FieldsNonEmpty(old(prompts)) && (!IsBlank(contentText) ==> !IsBlank(contentHtml))
        ==> FieldsNonEmpty(prompts)
    {
      ghost var before := State();
      var title := Trim(titleText);
      var content := Trim(contentHtml);
      var hasContent := Trim(contentText);
      var draft := Draft(title, content, hasContent);
      if title == [] || hasContent == [] {
        return Rejected;
      }
      if IsSet(selectedId) {
        var found := FindFirst(prompts, selectedId.value);
        if found.Some? {
          var i := found.value;
          prompts := prompts[i := Edited(prompts[i], draft)];
        }
      } else {
        var created := Created(draft, now);
        prompts := [created] + prompts;
        selectedId := Some(created.id);
      }
      outcome := Saved;
      if UniqueIds(before.prompts) && NewId(now) !in Ids(before.prompts) {
        SavePreservesUniqueIds(before, draft, now);
      }
      if SelectionResolves(before) {
        SavePreservesSelectionResolves(before, draft, now);
      }
      if FieldsNonEmpty(before.prompts) && (hasContent != [] ==> content != []) {
        SaveKeepsFieldsNonEmpty(before, draft, now);
      }
    }

    /**
      * The remove branch of the list handler for the record id `id`: every
      * record with that id goes, the others keep their order, and the
      * selection is left as it was.
      */
    method Remove(id: string)
      modifies this
      ensures State() == RemoveStep(old(State()), id)
      ensures selectedId == old(selectedId)
      ensures id !in Ids(old(prompts)) ==> prompts == old(prompts)
      ensures UniqueIds(old(prompts)) ==> UniqueIds(prompts)
      ensures FieldsNonEmpty(old(prompts)) ==> FieldsNonEmpty(prompts)
    {
      ghost var before := State();
      prompts := Without(prompts, id);
      if id !in Ids(before.prompts) {
        RemoveAbsentIdKeepsList(before, id);
      }
      if UniqueIds(before.prompts) {
        RemovePreservesUniqueIds(before, id);
      }
      if FieldsNonEmpty(before.prompts) {
        RemoveKeepsFieldsNonEmpty(before, id);
      }
    }

    /** `newPrompt()`: clears the selection and keeps the records. */
    method NewPrompt()
      modifies this
      ensures State() == NewPromptStep(old(State()))
      ensures prompts == old(prompts) && selectedId == None
    {
      selectedId := None;
    }

    /**
      * `load()`: takes the stored records, or none when the slot is empty,
      * and clears the selection; a slot that cannot be read or parsed
      * leaves the state as it was.
      */
    method Load(slot: Slot)
      modifies this
      ensures State() == LoadStep(old(State()), slot)
      ensures !slot.Unreadable? ==> selectedId == None
    {
      match slot {
        case Absent =>
          prompts := [];
          selectedId := None;
        case Stored(records) =>
          prompts := records;
          selectedId := None;
        case Unreadable =>
      }
    }

    /**
      * The select branch of the list handler: the record whose title and
      * content are copied into the editor, which is the first record with
      * `id`, or none when no record has it. The selection is not changed.
      */
    method Select(id: string) returns (found: Option<Prompt>)
      ensures found.None? <==> id !in Ids(prompts)
      ensures found.Some? ==> exists i: nat :: FirstWithId(prompts, id, i) && found.value == prompts[i]
    {
      var i := FindFirst(prompts, id);
      found := if i.Some? then Some(prompts[i.value]) else None;
    }

    /**
      * `renderList(filterText)`: the records listed, in store order. It reads
      * the state and changes nothing; an empty or all-whitespace filter lists
      * every record.
      */
    method RenderList(filterText: string) returns (shown: seq<Prompt>)
      ensures shown == Visible(prompts, filterText)
      ensures IsBlank(filterText) ==> shown == prompts
    {
      shown := Visible(prompts, filterText);
      if IsBlank(filterText) {
        BlankFilterShowsAll(prompts, filterText);
      }
    }
  }
}
