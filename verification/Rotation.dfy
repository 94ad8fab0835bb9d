// Credential rotation: how verification passes, answered from the cache or live, stamp a
// finding and record a rotation when an active credential turns inactive.
module Rotation {
  import opened Prelude

  datatype Validity = Unverified | Active | Inactive | Other

  /** The verification stamp of one finding. */
  datatype Stamp = Stamp(status: Validity, firstSeenActive: Option<int>, verifiedAt: Option<int>)

  /** One rotation event. */
  datatype Event = Event(firstSeenActive: int, rotatedAt: int, seconds: int, live: bool)

  /** What one pass does with the finding at time `now`: skip it (fresh stamp, spent budget or
      unsupported provider), answer from the cache, answer live, or get no verdict. */
  datatype Pass =
    | Skip(now: int)
    | Cached(now: int, status: Validity, verifiedAt: Option<int>)
    | Verified(now: int, status: Validity)
    | NoVerdict(now: int)

  predicate Definite(v: Validity) {
    v.Active? || v.Inactive?
  }

  predicate Stamps(p: Pass) {
    (p.Cached? && Definite(p.status)) || (p.Verified? && Definite(p.status))
  }

  function Stamped(s: Stamp, p: Pass): Stamp {
    if !Stamps(p) then s
    else
      var at := if p.Cached? then p.verifiedAt else Some(p.now);
      Stamp(p.status, if p.status.Active? && s.firstSeenActive.None? then at else s.firstSeenActive, at)
  }

  function Recorded(s: Stamp, p: Pass): seq<Event> {
    if Stamps(p) && s.status.Active? && p.status.Inactive? then
      var since := OrElse(s.firstSeenActive, s.verifiedAt);
      var first := if since.Some? then since.value else p.now;
      [Event(first, p.now, Max(0, p.now - first), p.Verified?)]
    else []
  }

  /** A pass stamps the finding exactly when it brings a definite verdict, from the cache with
      the cached moment, live with its own. */
  lemma PassStamps(s: Stamp, p: Pass)
    ensures p.Skip? || p.NoVerdict? ==> Stamped(s, p) == s && Recorded(s, p) == []
    ensures p.Cached? || p.Verified? ==>
              var definite := p.status == Active || p.status == Inactive;
              && (!definite ==> Stamped(s, p) == s && Recorded(s, p) == [])
              && (definite ==> Stamped(s, p).status == p.status
                               && Stamped(s, p).verifiedAt == if p.Cached? then p.verifiedAt else Some(p.now))
  {}

  /** A rotation event dates the life of the credential from the anchor, from the last
      verification when there is none, and from now when there is neither; never negative. */
  lemma EventColumns(s: Stamp, p: Pass)
    requires s.status == Active && (p.Cached? || p.Verified?) && p.status == Inactive
    ensures |Recorded(s, p)| == 1
    ensures var event := Recorded(s, p)[0];
            && event.rotatedAt == p.now && event.live == p.Verified?
            && event.firstSeenActive == (match s.firstSeenActive
                                         case Some(t) => t
                                         case None => (match s.verifiedAt case Some(t) => t case None => p.now))
            && event.seconds == if event.firstSeenActive <= p.now then p.now - event.firstSeenActive else 0
  {}

  /** The anchor is set by the first pass that finds the credential active. */
  lemma AnchorIsFirstActive(s: Stamp, p: Pass)
    requires s.firstSeenActive == None
    ensures Stamped(s, p).firstSeenActive
         == match p
            case Verified(now, Active) => Some(now)
            case Cached(_, Active, at) => at
            case _ => None
  {}

  /** A finding's stamp and the rotation events recorded for it. */
  class TrackedFinding {
    var stamp: Stamp
    var events: seq<Event>

    constructor (stamp: Stamp)
      ensures this.stamp == stamp && events == []
    {
      this.stamp, events := stamp, [];
    }

    method Verify(p: Pass)
      modifies this
      ensures stamp == Stamped(old(stamp), p) && events == old(events) + Recorded(old(stamp), p)
    {
      if Stamps(p) {
        var previous := stamp;
        var at := if p.Cached? then p.verifiedAt else Some(p.now);
        var first := previous.firstSeenActive;
        if p.status.Active? && first.None? {
          first := at;
        }
        stamp := Stamp(p.status, first, at);
        if previous.status.Active? && p.status.Inactive? {
          var since := OrElse(previous.firstSeenActive, previous.verifiedAt);
          var anchor := if since.Some? then since.value else p.now;
          events := events + [Event(anchor, p.now, Max(0, p.now - anchor), p.Verified?)];
        }
      }
    }

    /** Any sequence of passes. */
    method VerifyAll(passes: seq<Pass>)
      modifies this
      ensures stamp == FinalStamp(old(stamp), passes) && events == old(events) + AllEvents(old(stamp), passes)
    {
      ghost var start, logged := stamp, events;
      for k := 0 to |passes|
        invariant stamp == FinalStamp(start, passes[..k]) && events == logged + AllEvents(start, passes[..k])
      {
        assert passes[..k+1][..k] == passes[..k];
        Verify(passes[k]);
      }
      assert passes[..|passes|] == passes;
    }
  }

  function FinalStamp(s: Stamp, passes: seq<Pass>): Stamp {
    if passes == [] then s else Stamped(FinalStamp(s, passes[..|passes|-1]), passes[|passes|-1])
  }

  function AllEvents(s: Stamp, passes: seq<Pass>): seq<Event> {
    if passes == [] then []
    else AllEvents(s, passes[..|passes|-1]) + Recorded(FinalStamp(s, passes[..|passes|-1]), passes[|passes|-1])
  }

  /** The statuses as stamped, beginning with the one the finding came with. */
  function Statuses(s: Stamp, passes: seq<Pass>): (statuses: seq<Validity>)
    ensures statuses != []
  {
    if passes == [] then [s.status]
    else
      var last := passes[|passes|-1];
      Statuses(s, passes[..|passes|-1]) + if Stamps(last) then [last.status] else []
  }

  /** Adjacent active-then-inactive pairs. */
  function Flips(statuses: seq<Validity>): nat {
    if |statuses| < 2 then 0
    else Flips(statuses[..|statuses|-1])
         + if statuses[|statuses|-2].Active? && statuses[|statuses|-1].Inactive? then 1 else 0
  }

  /** The rotation events number exactly the adjacent active-then-inactive stamps, whichever
      of the two paths stamped them. */
  lemma {:induction false} EventsAreFlips(s: Stamp, passes: seq<Pass>)
    ensures |AllEvents(s, passes)| == Flips(Statuses(s, passes))
    ensures FinalStamp(s, passes).status == Statuses(s, passes)[|Statuses(s, passes)|-1]
    decreases |passes|
  {
    if passes != [] {
      var front, last := passes[..|passes|-1], passes[|passes|-1];
      EventsAreFlips(s, front);
      if Stamps(last) {
        var before := Statuses(s, front);
        assert (before + [last.status])[..|before|] == before;
      } else {
        assert Statuses(s, passes) == Statuses(s, front);
      }
    }
  }

  /** Events are kept in the order of the passes; later passes only add behind. */
  lemma {:induction false} EventsKeepOrder(s: Stamp, passes: seq<Pass>, k: nat)
    requires k <= |passes|
    ensures AllEvents(s, passes[..k]) <= AllEvents(s, passes)
    decreases |passes|
  {
    if k == |passes| {
      assert passes[..k] == passes;
    } else {
      assert passes[..|passes|-1][..k] == passes[..k];
      EventsKeepOrder(s, passes[..|passes|-1], k);
    }
  }

  /** Once set, the first-seen anchor never moves, and from then on every event carries it. */
  lemma {:induction false} AnchorNeverMoves(s: Stamp, passes: seq<Pass>)
    requires s.firstSeenActive.Some?
    ensures FinalStamp(s, passes).firstSeenActive == s.firstSeenActive
    ensures forall k :: 0 <= k < |AllEvents(s, passes)| ==>
              AllEvents(s, passes)[k].firstSeenActive == s.firstSeenActive.value
    decreases |passes|
  {
    if passes != [] {
      AnchorNeverMoves(s, passes[..|passes|-1]);
    }
  }
}
