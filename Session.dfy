/**
  * A page session: `init` loads the store, then the user's clicks run the
  * handlers one at a time, each to completion. Ids stay unique over any
  * session in which the clock advances between two saves, and can collide
  * when it does not.
  */
module Session {
  import opened Wrappers
  import opened Text
  import opened Seqs
  import opened Prompts

  /** A click on one of the buttons that change the store. */
  datatype Event =
    | SaveClicked(draft: Draft, now: nat)
    | RemoveClicked(id: string)
    | NewClicked

  /** The state after one handler has run. */
  function Apply(s: StoreState, e: Event): StoreState {
    match e
    case SaveClicked(d, now) => SaveStep(s, d, now)
    case RemoveClicked(id) => RemoveStep(s, id)
    case NewClicked => NewPromptStep(s)
  }

  /** The state after the handlers for `events` have run in order. */
  function Run(s: StoreState, events: seq<Event>): StoreState
    decreases |events|
  {
    if events == [] then s else Run(Apply(s, events[0]), events[1..])
  }

  /** Every save in `events` reads the clock at `t` or later, each one later than the one before. */
  predicate ClockAdvances(events: seq<Event>, t: nat)
    decreases |events|
  {
    if events == [] then true
    else match events[0]
      case SaveClicked(_, now) => t <= now && ClockAdvances(events[1..], now + 1)
      case _ => ClockAdvances(events[1..], t)
  }

  /** After a save at `now`, every id was minted before `now + 1`. */
  lemma SaveKeepsAllMintedBefore(s: StoreState, d: Draft, now: nat, t: nat)
    requires AllMintedBefore(s.prompts, t) && t <= now
    ensures AllMintedBefore(SaveStep(s, d, now).prompts, now + 1)
  {
    var ps := SaveStep(s, d, now).prompts;
    var created := Accepts(d) && !IsSet(s.selectedId);
    var shift := if created then 1 else 0;
    SaveKeepsIdsOrAddsNew(s, d, now);
    assert |ps| == |s.prompts| + shift;
    forall i | shift <= i < |ps|
      ensures MintedBefore(ps[i].id, now + 1)
    {
      assert ps[i].id == Ids(ps)[i] == Ids(s.prompts)[i - shift] == s.prompts[i - shift].id;
      assert MintedBefore(s.prompts[i - shift].id, t);
    }
    if created {
      assert ps[0].id == Ids(ps)[0] == NewId(now);
      assert MintedBefore(ps[0].id, now + 1);
    }
  }

  /** Removing records keeps every remaining id minted before `t`. */
  lemma RemoveKeepsAllMintedBefore(s: StoreState, id: string, t: nat)
    requires AllMintedBefore(s.prompts, t)
    ensures AllMintedBefore(RemoveStep(s, id).prompts, t)
  {
    var ps := RemoveStep(s, id).prompts;
    forall i | 0 <= i < |ps|
      ensures MintedBefore(ps[i].id, t)
    {
      assert multiset(ps)[ps[i]] > 0;
      assert ps[i] in s.prompts;
    }
  }

  /**
    * Starting from records with unique ids all minted before `t`, a session
    * whose saves read an advancing clock from `t` on never holds two
    * records with the same id.
    */
  lemma {:induction false} RunKeepsIdsUnique(s: StoreState, events: seq<Event>, t: nat)
    requires UniqueIds(s.prompts) && AllMintedBefore(s.prompts, t)
    requires ClockAdvances(events, t)
    ensures UniqueIds(Run(s, events).prompts)
    decreases |events|
  {
    if events != [] {
      match events[0]
      case SaveClicked(d, now) =>
        LaterClockGivesFreshId(s.prompts, now) by {
          forall i | 0 <= i < |s.prompts|
            ensures MintedBefore(s.prompts[i].id, now)
          {
            assert MintedBefore(s.prompts[i].id, t);
            var t': nat :| t' < t && s.prompts[i].id == NewId(t');
          }
        }
        SavePreservesUniqueIds(s, d, now);
        SaveKeepsAllMintedBefore(s, d, now, t);
        RunKeepsIdsUnique(Apply(s, events[0]), events[1..], now + 1);
      case RemoveClicked(id) =>
        RemovePreservesUniqueIds(s, id);
        RemoveKeepsAllMintedBefore(s, id, t);
        RunKeepsIdsUnique(Apply(s, events[0]), events[1..], t);
      case NewClicked =>
        RunKeepsIdsUnique(Apply(s, events[0]), events[1..], t);
    }
  }

  /**
    * Two new records saved within the same millisecond, with "new" clicked
    * in between, get the same id: the code does not make ids unique by itself.
    */
  lemma SameMillisecondGivesDuplicateIds(d1: Draft, d2: Draft, now: nat)
    requires Accepts(d1) && Accepts(d2)
    ensures !UniqueIds(Run(Empty, [SaveClicked(d1, now), NewClicked, SaveClicked(d2, now)]).prompts)
  {
    var es := [SaveClicked(d1, now), NewClicked, SaveClicked(d2, now)];
    var s1 := SaveStep(Empty, d1, now);
    var s2 := NewPromptStep(s1);
    var s3 := SaveStep(s2, d2, now);
    assert s3.prompts == [Created(d2, now), Created(d1, now)];
    assert s3.prompts[0].id == s3.prompts[1].id;
    assert Run(Empty, es) == Run(s1, es[1..]) == Run(s2, es[2..]) == Run(s3, []);
  }

  /**
    * Two saves on an empty store, the second with the selection still on the
    * record the first one created: one record, with the first id and
    * position and the second title and content.
    */
  lemma CreateThenEdit(d1: Draft, d2: Draft, now: nat, later: nat)
    requires Accepts(d1) && Accepts(d2)
    ensures Run(Empty, [SaveClicked(d1, now), SaveClicked(d2, later)])
      == StoreState([Edited(Created(d1, now), d2)], Some(NewId(now)))
  {
    var es := [SaveClicked(d1, now), SaveClicked(d2, later)];
    var s1 := StoreState([Created(d1, now)], Some(NewId(now)));
    assert SaveStep(Empty, d1, now) == s1;
    assert FindFirst(s1.prompts, NewId(now)) == Some(0);
    var s2 := SaveStep(s1, d2, later);
    assert s2 == StoreState([Edited(Created(d1, now), d2)], Some(NewId(now)));
    assert es[1..][1..] == [];
    assert Run(Empty, es) == Run(s1, es[1..]) == Run(s2, []);
  }

  /** The filter text "AL" searches for "al". */
  lemma FilterALSearchesLowercase()
    ensures Trim(ToLower("AL")) == "al"
  {
    assert ToLower("AL") == "al";
    TrimKeepsUnpadded("al");
  }

  /** A title "Alpha" passes the filter "AL". */
  lemma AlphaMatchesAL(p: Prompt)
    requires p.title == "Alpha"
    ensures Matches("AL", p)
  {
    FilterALSearchesLowercase();
    assert ToLower(p.title) == "alpha";
    assert OccursAt("alpha", "al", 0);
  }

  /** "beta" has no "a" followed by "l". */
  lemma BetaLacksAL()
    ensures !Contains("beta", "al")
  {
    var title := "beta";
    forall k: nat
      ensures !OccursAt(title, "al", k)
    {
      if k + 2 <= |title| {
        assert title[k..k + 2][0] == title[k] != 'a';
      }
    }
  }

  /** A title "beta" does not pass the filter "AL". */
  lemma BetaMissesAL(p: Prompt)
    requires p.title == "beta"
    ensures !Matches("AL", p)
  {
    FilterALSearchesLowercase();
    assert ToLower(p.title) == "beta";
    BetaLacksAL();
  }

  /** Titles "Alpha" and "beta" filtered by "AL": only the first is listed. */
  lemma SearchScenario(a: Prompt, b: Prompt)
    requires a.title == "Alpha" && b.title == "beta"
    ensures Visible([a, b], "AL") == [a]
  {
    AlphaMatchesAL(a);
    BetaMissesAL(b);
    assert [a, b][1..] == [b];
    assert [b][1..] == [];
  }
}
