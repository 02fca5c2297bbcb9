/** The release gate of a letter: candidate, approval, export and site publication, as steps on
  * one release record that keeps an append-only event list. Eligibility is a parameter of every
  * check, since the letter's files may change between steps.
  */
module ReleaseGate {

  datatype State = Candidate | ManualRequired | Approved | Scheduled | Exported | Publishing | Published

  datatype Event =
    | CandidateCreated(eligible: bool)
    | ApprovalBlocked
    | ReleaseApproved
    | ExportBlocked
    | ReleaseExported
    | SitePublished(at: string)

  predicate IsProtected(s: State) {
    s == Approved || s == Scheduled || s == Exported || s == Publishing || s == Published
  }

  // ------------------------------------------------------------------ replaying the events

  datatype Status = Status(state: State, approved: bool)

  /** What one event says about the status. */
  function ReplayOne(s: Status, e: Event): Status {
    match e
    case CandidateCreated(eligible) =>
      if !eligible then Status(ManualRequired, false)
      else if IsProtected(s.state) then s
      else Status(Candidate, false)
    case ApprovalBlocked => Status(ManualRequired, false)
    case ReleaseApproved =>
      Status(if IsProtected(s.state) && s.state != Approved then s.state else Approved, true)
    case ExportBlocked => Status(ManualRequired, false)
    case ReleaseExported =>
      Status(if s.state == Publishing || s.state == Published then s.state else Exported, s.approved)
    case SitePublished(_) => Status(Published, s.approved)
  }

  /** The status after the first `n` events; before any event there is no approval. */
  function ReplayUpTo(events: seq<Event>, n: nat): Status
    requires n <= |events|
  {
    if n == 0 then Status(ManualRequired, false) else ReplayOne(ReplayUpTo(events, n - 1), events[n - 1])
  }

  /** The status a whole event list stands for. */
  function Replay(events: seq<Event>): Status {
    ReplayUpTo(events, |events|)
  }

  lemma {:induction false} ReplayPrefix(events: seq<Event>, longer: seq<Event>, n: nat)
    requires events <= longer && n <= |events|
    ensures ReplayUpTo(longer, n) == ReplayUpTo(events, n)
  {
    if n > 0 {
      ReplayPrefix(events, longer, n - 1);
    }
  }

  lemma ReplaySnoc(events: seq<Event>, e: Event)
    ensures Replay(events + [e]) == ReplayOne(Replay(events), e)
  {
    ReplayPrefix(events, events + [e], |events|);
  }

  // ------------------------------------------------------------------ what a published state rests on

  predicate Demotes(e: Event) {
    e == CandidateCreated(false) || e == ApprovalBlocked || e == ExportBlocked
  }

  /** No event from `from` on demotes the release to manual handling. */
  ghost predicate NoDemotionSince(events: seq<Event>, from: nat) {
    forall i :: from <= i < |events| ==> !Demotes(events[i])
  }

  ghost predicate ApprovedAt(events: seq<Event>, a: nat) {
    a < |events| && events[a] == ReleaseApproved && NoDemotionSince(events, a)
  }

  ghost predicate ExportedAt(events: seq<Event>, a: nat, x: nat) {
    ApprovedAt(events, a) && a < x < |events| && events[x] == ReleaseExported
  }

  ghost predicate PublishedAt(events: seq<Event>, a: nat, x: nat, p: nat) {
    ExportedAt(events, a, x) && x < p < |events| && events[p].SitePublished?
  }

  /** The evidence a status needs: approval, then export, then publication, with no demotion since. */
  ghost predicate Justified(events: seq<Event>, s: Status) {
    && (s.approved <==> IsProtected(s.state))
    && (s.state in {Candidate, ManualRequired, Approved, Exported, Published})
    && (s.approved ==> exists a :: ApprovedAt(events, a))
    && (s.state == Exported ==> exists a, x :: ExportedAt(events, a, x))
    && (s.state == Published ==> exists a, x, p :: PublishedAt(events, a, x, p))
  }

  /** The guards of the code on which event may come next. */
  predicate Permitted(s: Status, e: Event) {
    match e
    case ExportBlocked => s.approved
    case ReleaseExported => s.approved
    case SitePublished(_) => s.approved && (s.state == Exported || s.state == Published)
    case _ => true
  }

  lemma EvidenceKept(events: seq<Event>, e: Event)
    requires !Demotes(e)
    ensures forall a :: ApprovedAt(events, a) ==> ApprovedAt(events + [e], a)
    ensures forall a, x :: ExportedAt(events, a, x) ==> ExportedAt(events + [e], a, x)
    ensures forall a, x, p :: PublishedAt(events, a, x, p) ==> PublishedAt(events + [e], a, x, p)
  {
    forall a | ApprovedAt(events, a) ensures ApprovedAt(events + [e], a) {
    }
  }

  lemma JustifiedStep(events: seq<Event>, s: Status, e: Event)
    requires Justified(events, s) && Permitted(s, e)
    ensures Justified(events + [e], ReplayOne(s, e))
  {
    var n := |events|;
    if !Demotes(e) {
      EvidenceKept(events, e);
      match e {
        case CandidateCreated(_) =>
        case ReleaseApproved => assert ApprovedAt(events + [e], n);
        case ReleaseExported => JustifiedExport(events, s, e);
        case SitePublished(_) => JustifiedPublication(events, s, e);
      }
    }
  }

  lemma JustifiedExport(events: seq<Event>, s: Status, e: Event)
    requires Justified(events, s) && s.approved && e == ReleaseExported
    ensures Justified(events + [e], ReplayOne(s, e))
  {
    EvidenceKept(events, e);
    var a :| ApprovedAt(events, a);
    assert ExportedAt(events + [e], a, |events|);
  }

  lemma JustifiedPublication(events: seq<Event>, s: Status, e: Event)
    requires Justified(events, s) && Permitted(s, e) && e.SitePublished?
    ensures Justified(events + [e], ReplayOne(s, e))
  {
    EvidenceKept(events, e);
    if s.state == Exported {
      var a, x :| ExportedAt(events, a, x);
      assert PublishedAt(events + [e], a, x, |events|);
    }
  }

  /** Every event was permitted by the status that the events before it stand for. */
  ghost predicate Lawful(events: seq<Event>) {
    forall i :: 0 <= i < |events| ==> PermittedAt(events, i)
  }

  predicate PermittedAt(events: seq<Event>, i: nat)
    requires i < |events|
  {
    Permitted(ReplayUpTo(events, i), events[i])
  }

  /** For every run the guards allow, the replayed status is backed by its evidence. */
  lemma {:induction false} LawfulIsJustified(events: seq<Event>)
    requires Lawful(events)
    ensures Justified(events, Replay(events))
    decreases |events|
  {
    if events != [] {
      var n := |events| - 1;
      LawfulPrefix(events, n);
      assert PermittedAt(events, n);
      LawfulIsJustified(events[..n]);
      ReplayPrefix(events[..n], events, n);
      JustifiedStep(events[..n], Replay(events[..n]), events[n]);
      assert events[..n] + [events[n]] == events;
    }
  }

  lemma LawfulPrefix(events: seq<Event>, n: nat)
    requires Lawful(events) && n <= |events|
    ensures Lawful(events[..n])
  {
    forall i | 0 <= i < n ensures PermittedAt(events[..n], i) {
      assert PermittedAt(events, i);
      ReplayPrefix(events[..n], events, i);
    }
  }

  lemma LawfulExtended(events: seq<Event>, e: Event)
    requires Lawful(events) && Permitted(Replay(events), e)
    ensures Lawful(events + [e]) && Replay(events + [e]) == ReplayOne(Replay(events), e)
  {
    ReplaySnoc(events, e);
    var more := events + [e];
    forall i | 0 <= i < |more| ensures PermittedAt(more, i) {
      ReplayPrefix(events, more, i);
      if i < |events| {
        assert PermittedAt(events, i);
      }
    }
  }

  // ------------------------------------------------------------------ the publication date

  /** The date of the first site publication, empty before one. */
  function FirstPublished(events: seq<Event>): string {
    if events == [] then ""
    else if events[0].SitePublished? && events[0].at != "" then events[0].at
    else FirstPublished(events[1..])
  }

  /** Once set, the date survives every later step, demotions and republications included. */
  lemma {:induction false} PublicationDateStable(events: seq<Event>, more: seq<Event>)
    requires FirstPublished(events) != ""
    ensures FirstPublished(events + more) == FirstPublished(events)
  {
    assert (events + more)[0] == events[0];
    if !(events[0].SitePublished? && events[0].at != "") {
      assert (events + more)[1..] == events[1..] + more;
      PublicationDateStable(events[1..], more);
    }
  }

  lemma DateKept(events: seq<Event>, e: Event)
    ensures FirstPublished(events) != "" ==> FirstPublished(events + [e]) != ""
  {
    if FirstPublished(events) != "" {
      PublicationDateStable(events, [e]);
    }
  }

  lemma {:induction false} FirstPublicationNow(events: seq<Event>, now: string)
    requires FirstPublished(events) == "" && now != ""
    ensures FirstPublished(events + [SitePublished(now)]) == now
  {
    if events != [] {
      assert (events + [SitePublished(now)])[1..] == events[1..] + [SitePublished(now)];
      FirstPublicationNow(events[1..], now);
    }
  }

  // ------------------------------------------------------------------ the code

  datatype Outcome = Done | Refused

  class ReleaseRecord {
    var stored: bool
    var state: State
    var approved: bool
    var events: seq<Event>
    var sitePublishedAt: string

    ghost predicate Valid()
      reads this
    {
      && (!stored ==> events == [])
      && (stored ==> events != [])
      && Lawful(events)
      && (stored ==> Status(state, approved) == Replay(events))
      && (sitePublishedAt != "" ==> FirstPublished(events) != "")
    }

    constructor ()
      ensures Valid() && !stored && events == []
    {
      stored, state, approved, events, sitePublishedAt := false, ManualRequired, false, [], "";
    }

    /** `create_release_candidate`: keeps a protected state while the letter is eligible, and
      * rebuilds the publication targets from scratch.
      */
    method CreateCandidate(eligible: bool)
      requires Valid()
      modifies this
      ensures Valid() && stored
      ensures events == old(events) + [CandidateCreated(eligible)]
      ensures !old(stored) ==> !approved
      // an ineligible letter is demoted; otherwise a protected state is kept with its approval
      ensures !eligible ==> state == ManualRequired && !approved
      ensures eligible && old(stored) && old(state) in {Approved, Scheduled, Exported, Publishing, Published} ==>
                state == old(state) && approved == old(approved)
      ensures eligible && !(old(stored) && old(state) in {Approved, Scheduled, Exported, Publishing, Published}) ==>
                state == Candidate && !approved
    {
      LawfulExtended(events, CandidateCreated(eligible));
      if !eligible {
        state, approved := ManualRequired, false;
      } else if !(stored && IsProtected(state)) {
        state, approved := Candidate, false;
      }
      stored := true;
      sitePublishedAt := "";
      events := events + [CandidateCreated(eligible)];
    }

    /** `approve_release`: creates the candidate first when there is no record. */
    method Approve(eligibleAtCreation: bool, eligible: bool)
      requires Valid()
      modifies this
      ensures Valid() && stored
      ensures events == old(events) + (if old(stored) then [] else [CandidateCreated(eligibleAtCreation)])
                        + [if eligible then ReleaseApproved else ApprovalBlocked]
      // approval never sends a release back that is further on
      ensures !eligible ==> state == ManualRequired && !approved
      ensures eligible ==>
                && approved
                && state == (if old(stored) && old(state) in {Scheduled, Exported, Publishing, Published}
                             then old(state) else Approved)
    {
      if !stored {
        CreateCandidate(eligibleAtCreation);
      }
      LawfulExtended(events, if eligible then ReleaseApproved else ApprovalBlocked);
      DateKept(events, if eligible then ReleaseApproved else ApprovalBlocked);
      if !eligible {
        state, approved := ManualRequired, false;
        events := events + [ApprovalBlocked];
        return;
      }
      if !(state == Scheduled || state == Exported || state == Publishing || state == Published) {
        state := Approved;
      }
      approved := true;
      events := events + [ReleaseApproved];
    }

    /** `export_campaign`: refuses without approval, and demotes when the letter is no longer eligible. */
    method Export(eligibleAtCreation: bool, eligible: bool) returns (r: Outcome)
      requires Valid()
      modifies this
      ensures Valid() && stored
      ensures r == Done <==> old(stored) && old(approved) && eligible
      ensures events == old(events) + (if !old(stored) then [CandidateCreated(eligibleAtCreation)]
                                       else if !old(approved) then []
                                       else if eligible then [ReleaseExported] else [ExportBlocked])
      // an export moves the release forward, and never back from a publication
      ensures r == Done ==>
                && approved
                && state == (if old(state) == Publishing || old(state) == Published then old(state) else Exported)
      ensures old(stored) && old(approved) && !eligible ==> state == ManualRequired && !approved
      ensures old(stored) && !old(approved) ==> state == old(state) && !approved
    {
      if !stored {
        CreateCandidate(eligibleAtCreation);
      }
      if !approved {
        return Refused;
      }
      LawfulExtended(events, if eligible then ReleaseExported else ExportBlocked);
      DateKept(events, if eligible then ReleaseExported else ExportBlocked);
      if !eligible {
        state, approved := ManualRequired, false;
        events := events + [ExportBlocked];
        return Refused;
      }
      if state != Publishing && state != Published {
        state := Exported;
      }
      events := events + [ReleaseExported];
      return Done;
    }

    /** The state step of `publish_release_site`, and the date it gives the index entry: the first
      * publication event decides, then the stored target, then the clock.
      */
    method PublishSite(siteMdExists: bool, now: string) returns (r: Outcome, publishedAt: string)
      requires Valid() && now != ""
      modifies this
      ensures Valid()
      ensures r == Done <==> stored && approved && (old(state) == Exported || old(state) == Published) && siteMdExists
      ensures events == old(events) + (if r == Done then [SitePublished(now)] else [])
      ensures r == Done ==> state == Published && publishedAt == FirstPublished(events)
      ensures r == Refused ==> state == old(state)
      ensures stored == old(stored) && approved == old(approved)
    {
      publishedAt := "";
      if !stored || !approved || !(state == Exported || state == Published) || !siteMdExists {
        return Refused, "";
      }
      LawfulExtended(events, SitePublished(now));
      var first := FirstPublished(events);
      if first != "" {
        PublicationDateStable(events, [SitePublished(now)]);
      } else {
        FirstPublicationNow(events, now);
      }
      publishedAt := if first != "" then first else if sitePublishedAt != "" then sitePublishedAt else now;
      state := Published;
      sitePublishedAt := publishedAt;
      events := events + [SitePublished(now)];
      r := Done;
    }

    /** What every reachable record guarantees. */
    lemma RecordJustified()
      requires Valid() && stored
      ensures Status(state, approved) == Replay(events)
      ensures approved <==> IsProtected(state)
      ensures state == Published ==> exists a, x, p :: PublishedAt(events, a, x, p)
      ensures state != Publishing && state != Scheduled
    {
      LawfulIsJustified(events);
    }
  }

  /** A letter that stays eligible and has its page is released from any state of its record: none of the four
    * steps is refused.
    */
  method ReleaseLetter(record: ReleaseRecord, now: string) returns (exported: Outcome, published: Outcome)
    requires record.Valid() && now != ""
    modifies record
    ensures record.Valid() && exported == Done && published == Done
    ensures record.stored && record.approved && record.state == Published
  {
    record.CreateCandidate(true);
    record.Approve(true, true);
    exported := record.Export(true, true);
    record.RecordJustified();
    var publishedAt;
    published, publishedAt := record.PublishSite(true, now);
  }
}
