/** The game-idea form: a daily quota of five suggestions per session, the
    blank-idea check, and the stored, stripped suggestion. */
module Contact {
  import opened Wrappers
  import opened Text
  import opened Seqs

  const DailyLimit: nat := 5
  const UnknownSession: string := "unknown"
  const FormKeys: seq<string> :=
    ["contact_name", "contact_email", "contact_game_name", "contact_idea", "contact_follow_up"]

  /** A document of the `game_suggestions` collection; its timestamp is not modelled. */
  datatype Suggestion = Suggestion(
    date: string,
    sessionId: string,
    name: string,
    email: string,
    gameName: string,
    idea: string,
    followUp: bool)

  datatype ContactForm = ContactForm(name: string, email: string, gameName: string, idea: string, followUp: bool)

  /** One run of the page: the session's anonymous id (if any), today's date
      in ISO form, and whether the form was submitted with which values. */
  datatype Visit = Visit(anonymousId: Option<string>, today: string, submitted: bool, form: ContactForm)

  datatype ContactResult = LimitReached | NotSubmitted | BlankIdea | Accepted

  function SessionId(anonymousId: Option<string>): string {
    anonymousId.GetOr(UnknownSession)
  }

  /** How many stored suggestions the query by session id and date returns. */
  function CountFor(subs: seq<Suggestion>, sessionId: string, day: string): (n: nat)
    ensures n <= |subs|
  {
    if subs == [] then 0
    else CountFor(subs[..|subs| - 1], sessionId, day)
         + (if subs[|subs| - 1].sessionId == sessionId && subs[|subs| - 1].date == day then 1 else 0)
  }

  /** The two `where` clauses of the quota query. */
  function SameSessionAndDay(sessionId: string, day: string): Suggestion -> bool {
    (s: Suggestion) => s.sessionId == sessionId && s.date == day
  }

  /** The count is the length of the list the query streams. */
  lemma {:induction false} CountForIsQuery(subs: seq<Suggestion>, sessionId: string, day: string)
    ensures CountFor(subs, sessionId, day) == |Filter(subs, SameSessionAndDay(sessionId, day))|
    decreases |subs|
  {
    if subs != [] {
      var front := subs[..|subs| - 1];
      CountForIsQuery(front, sessionId, day);
      assert subs == front + [subs[|subs| - 1]];
      FilterAppend(front, subs[|subs| - 1], SameSessionAndDay(sessionId, day));
    }
  }

  /** No session has more than five suggestions stored for any one day. */
  ghost predicate WithinQuota(subs: seq<Suggestion>) {
    forall sessionId, day :: CountFor(subs, sessionId, day) <= DailyLimit
  }

  /** The stored document: the four text fields stripped, plus date, session and flag. */
  function NewSuggestion(form: ContactForm, sessionId: string, today: string): Suggestion {
    Suggestion(today, sessionId, Strip(form.name), Strip(form.email), Strip(form.gameName),
               Strip(form.idea), form.followUp)
  }

  function Outcome(subs: seq<Suggestion>, v: Visit): ContactResult {
    if CountFor(subs, SessionId(v.anonymousId), v.today) >= DailyLimit then LimitReached
    else if !v.submitted then NotSubmitted
    else if Strip(v.form.idea) == "" then BlankIdea
    else Accepted
  }

  /** The collection after one run of the page. */
  function Step(subs: seq<Suggestion>, v: Visit): seq<Suggestion> {
    if Outcome(subs, v) == Accepted then subs + [NewSuggestion(v.form, SessionId(v.anonymousId), v.today)]
    else subs
  }

  /** The collection after runs of the page one after the other. */
  function RunVisits(subs: seq<Suggestion>, visits: seq<Visit>): seq<Suggestion>
    decreases |visits|
  {
    if visits == [] then subs else RunVisits(Step(subs, visits[0]), visits[1..])
  }

  function KeysOf(keys: seq<string>): set<string> {
    set k | k in keys
  }

  // ------------------------------------------------------------ properties

  lemma KeysOfExtend(keys: seq<string>, i: nat)
    requires i < |keys|
    ensures KeysOf(keys[..i + 1]) == KeysOf(keys[..i]) + {keys[i]}
  {
    assert keys[..i + 1] == keys[..i] + [keys[i]];
  }

  /** A new suggestion counts toward its own session and day only. */
  lemma CountAppend(subs: seq<Suggestion>, s: Suggestion, sessionId: string, day: string)
    ensures CountFor(subs + [s], sessionId, day) ==
            CountFor(subs, sessionId, day) + (if s.sessionId == sessionId && s.date == day then 1 else 0)
  {
    assert (subs + [s])[..|subs|] == subs;
  }

  /** An accepted suggestion is stored with stripped fields and a non-blank
      idea, under today's date and the session's id. */
  lemma AcceptedSuggestionStored(subs: seq<Suggestion>, v: Visit)
    requires Outcome(subs, v) == Accepted
    ensures var after := Step(subs, v);
            var s := after[|after| - 1];
            && after == subs + [s]
            && s.date == v.today && s.sessionId == SessionId(v.anonymousId) && s.followUp == v.form.followUp
            && s.idea != "" && !IsBlank(v.form.idea)
            && IsStripped(s.name) && IsStripped(s.email) && IsStripped(s.gameName) && IsStripped(s.idea)
  {
  }

  /** A session with five suggestions today gets none accepted. */
  lemma LimitReachedRejects(subs: seq<Suggestion>, v: Visit)
    requires CountFor(subs, SessionId(v.anonymousId), v.today) >= DailyLimit
    ensures Outcome(subs, v) == LimitReached && Step(subs, v) == subs
  {
  }

  /** Suggestions of other sessions or other days do not use up this session's quota. */
  lemma OthersDoNotCount(subs: seq<Suggestion>, s: Suggestion, v: Visit)
    requires s.sessionId != SessionId(v.anonymousId) || s.date != v.today
    ensures Outcome(subs + [s], v) == Outcome(subs, v)
  {
    CountAppend(subs, s, SessionId(v.anonymousId), v.today);
  }

  /** Sessions without an anonymous id share the quota of "unknown". */
  lemma AnonymousSessionsShareQuota(subs: seq<Suggestion>, v: Visit, w: Visit)
    requires v.anonymousId.None? && w.anonymousId.None? && v.today == w.today
    requires Outcome(subs, v) == Accepted
    ensures CountFor(Step(subs, v), SessionId(w.anonymousId), w.today) ==
            CountFor(subs, SessionId(w.anonymousId), w.today) + 1
  {
    CountAppend(subs, NewSuggestion(v.form, UnknownSession, v.today), UnknownSession, v.today);
  }

  lemma StepWithinQuota(subs: seq<Suggestion>, v: Visit)
    requires WithinQuota(subs)
    ensures WithinQuota(Step(subs, v))
  {
    if Outcome(subs, v) == Accepted {
      var s := NewSuggestion(v.form, SessionId(v.anonymousId), v.today);
      forall sessionId, day ensures CountFor(subs + [s], sessionId, day) <= DailyLimit {
        CountAppend(subs, s, sessionId, day);
      }
    }
  }

  /** Under sequential use no session ever has more than five suggestions stored for a day. */
  lemma {:induction false} RunVisitsWithinQuota(subs: seq<Suggestion>, visits: seq<Visit>)
    requires WithinQuota(subs)
    ensures WithinQuota(RunVisits(subs, visits))
    decreases |visits|
  {
    if visits != [] {
      StepWithinQuota(subs, visits[0]);
      RunVisitsWithinQuota(Step(subs, visits[0]), visits[1..]);
    }
  }

  // ------------------------------------------------------------ the page

  /** The `game_suggestions` collection and the session-state keys that hold
      the form's widget values. */
  class ContactPage {
    var suggestions: seq<Suggestion>
    var formState: set<string>

    constructor (suggestions: seq<Suggestion>, formState: set<string>)
      ensures this.suggestions == suggestions && this.formState == formState
    {
      this.suggestions := suggestions;
      this.formState := formState;
    }

    /** Pops each form key from the session state, so the widgets start empty. */
    method ClearForm()
      modifies this
      ensures formState == old(formState) - KeysOf(FormKeys)
      ensures suggestions == old(suggestions)
    {
      var keys, state := FormKeys, formState;
      for i := 0 to |keys|
        invariant unchanged(this)
        invariant state == formState - KeysOf(keys[..i])
      {
        KeysOfExtend(keys, i);
        state := state - {keys[i]};
      }
      assert keys[..|keys|] == keys;
      formState := state;
    }

    /** One run of the page. */
    method Contact(anonymousId: Option<string>, today: string, submitted: bool, form: ContactForm)
      returns (result: ContactResult)
      modifies this
      ensures result == Outcome(old(suggestions), Visit(anonymousId, today, submitted, form))
      ensures suggestions == Step(old(suggestions), Visit(anonymousId, today, submitted, form))
      ensures result == LimitReached <==> CountFor(old(suggestions), SessionId(anonymousId), today) >= DailyLimit
      ensures result == BlankIdea ==> submitted && IsBlank(form.idea)
      ensures result == Accepted ==>
                suggestions == old(suggestions) + [NewSuggestion(form, SessionId(anonymousId), today)]
                && formState == old(formState) - KeysOf(FormKeys)
      ensures result != Accepted ==> suggestions == old(suggestions) && formState == old(formState)
      ensures old(WithinQuota(suggestions)) ==> WithinQuota(suggestions)
    {
      ghost var before, v := suggestions, Visit(anonymousId, today, submitted, form);
      var sessionId := SessionId(anonymousId);
      var existing := CountFor(suggestions, sessionId, today);
      if existing >= DailyLimit {
        result := LimitReached;
        assert Outcome(before, v) == result;
      } else if !submitted {
        result := NotSubmitted;
        assert Outcome(before, v) == result;
      } else if Strip(form.idea) == "" {
        result := BlankIdea;
        assert Outcome(before, v) == result;
      } else {
        assert Outcome(before, v) == Accepted;
        suggestions := suggestions + [NewSuggestion(form, sessionId, today)];
        ClearForm();
        result := Accepted;
      }
      assert suggestions == Step(before, v);
      if WithinQuota(before) {
        StepWithinQuota(before, v);
      }
    }
  }
}
