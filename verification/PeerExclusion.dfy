/**
  Excluding misbehaving peers. Peers are indexed twice: by address, and by the end of their exclusion,
  which finds the peer to evict when the container is full.
 */
module PeerExclusions {
  import opened Types
  import Cursor

  const TWO_32: nat := 0x1_0000_0000
  const SCORE_LIMIT: nat := 2
  const HOUR: nat := 3_600_000_000_000 // nanoseconds
  const EXCLUDE_TIME: nat := HOUR
  const EXCLUDE_REMOVE: nat := 24 * HOUR

  type Ip = nat

  datatype Address = Address(ip: Ip, port: nat)

  datatype Peer = Peer(excludeUntil: nat, address: Address, score: nat) {

    function Misbehaved(now: nat): Peer {
      Peer(ExclusionEnd(score + 1, now), address, score + 1)
    }

    predicate IsExcluded(now: nat) {
      score >= SCORE_LIMIT && excludeUntil > now
    }

    predicate HasExpired(now: nat) {
      excludeUntil + EXCLUDE_REMOVE * (score % TWO_32) < now
    }
  }

  function ExclusionEnd(score: nat, now: nat): nat {
    now + EXCLUDE_TIME * DurationFactor(score)
  }

  /** The score is cut to 32 bits before it is doubled. */
  function DurationFactor(score: nat): nat {
    if score <= SCORE_LIMIT then 1 else score % TWO_32 * 2 % TWO_32
  }

  function NewPeer(address: Address, now: nat): Peer {
    Peer(now + EXCLUDE_TIME, address, 1)
  }

  /** The doubled score wraps around with every 2^31 offences. */
  lemma DurationFactors(score: nat)
    ensures DurationFactor(score) == if score <= SCORE_LIMIT then 1 else 2 * (score % (TWO_32 / 2))
  {
  }

  /**
    The end set at `now` moves on with the next offence exactly if time has passed or the score limit is
    exceeded; up to the limit two offences at the same time end together. This holds but for every 2^31st
    offence.
   */
  lemma ExclusionGrows(peer: Peer, now: nat, later: nat)
    requires peer.excludeUntil == ExclusionEnd(peer.score, now) && now <= later && (peer.score + 1) % (TWO_32 / 2) != 0
    ensures peer.Misbehaved(later).excludeUntil >= peer.excludeUntil
    ensures peer.Misbehaved(later).excludeUntil > peer.excludeUntil <==> now < later || peer.score >= SCORE_LIMIT
    ensures peer.Misbehaved(later).excludeUntil == ExclusionEnd(peer.Misbehaved(later).score, later)
  {
    DurationFactors(peer.score);
    DurationFactors(peer.score + 1);
    hide DurationFactor;
    NextRemainder(peer.score);
  }

  lemma NextRemainder(n: nat)
    requires (n + 1) % 0x8000_0000 != 0
    ensures (n + 1) % 0x8000_0000 == n % 0x8000_0000 + 1
  {
  }

  /** The 2^31st offence, and every one that many later, ends the exclusion at once. */
  lemma ExclusionWraps(peer: Peer, later: nat)
    requires (peer.score + 1) % (TWO_32 / 2) == 0
    ensures peer.Misbehaved(later).excludeUntil == later && !peer.Misbehaved(later).IsExcluded(later)
  {
    DurationFactors(peer.score + 1);
    hide DurationFactor;
  }

  /** The first offence excludes nobody, the second excludes for an hour. */
  lemma SecondOffenceExcludes(address: Address, first: nat, second: nat, now: nat)
    ensures !NewPeer(address, first).IsExcluded(now)
    ensures NewPeer(address, first).Misbehaved(second).IsExcluded(now) <==> now < second + HOUR
    ensures NewPeer(address, first).excludeUntil == ExclusionEnd(1, first)
  {
  }

  /** From the third on, each offence excludes for two hours times the score; a day for each is waited after the end. */
  lemma ExpiryInNanoseconds(peer: Peer, now: nat)
    requires peer.score < 0x1_0000_0000
    ensures peer.HasExpired(now) <==> peer.excludeUntil + 86_400_000_000_000 * peer.score < now
    ensures HOUR == 3_600_000_000_000
    ensures 2 <= peer.score < 0x7fff_ffff ==> peer.Misbehaved(now).excludeUntil == now + 7_200_000_000_000 * (peer.score + 1)
    ensures peer.Misbehaved(now).score == peer.score + 1 && peer.Misbehaved(now).address == peer.address
  {
  }

  // ---------------------------------------------------------------------------------------------
  // The index by exclusion end

  type Dates = map<nat, seq<Ip>>

  function Inserted(dates: Dates, ip: Ip, until: nat): Dates {
    dates[until := (if until in dates then dates[until] else []) + [ip]]
  }

  function Retained(ips: seq<Ip>, ip: Ip): seq<Ip> {
    if ips == [] then [] else (if ips[0] != ip then [ips[0]] else []) + Retained(ips[1..], ip)
  }

  function Replaced(dates: Dates, until: nat, ips: seq<Ip>): Dates {
    if ips == [] then dates - {until} else dates[until := ips]
  }

  class PeersOrderedByExclusionDate {
    var dates: Dates

    constructor ()
      ensures dates == map[]
    {
      dates := map[];
    }

    method Insert(ip: Ip, until: nat)
      modifies this
      ensures dates == Inserted(old(dates), ip, until)
    {
      var entries := if until in dates then dates[until] else [];
      dates := dates[until := entries + [ip]];
    }

    method Remove(ip: Ip, until: nat)
      requires until in dates
      modifies this
      ensures dates == Replaced(old(dates), until, Retained(old(dates)[until], ip))
    {
      var entries := Retained(dates[until], ip);
      dates := dates[until := entries];
      if entries == [] {
        dates := dates - {until};
      }
    }

    /** Takes out the last address of the earliest date. */
    method Pop() returns (ip: Option<Ip>)
      requires forall d | d in dates :: dates[d] != []
      modifies this
      ensures match Cursor.LowerBound(old(dates).Keys, 0)
              case None => ip.None? && dates == old(dates)
              case Some(first) => ip == Some(Last(old(dates)[first])) && dates == Popped(old(dates), first)
    {
      match Cursor.LowerBound(dates.Keys, 0) {
        case None => return None;
        case Some(first) =>
          var ips := dates[first];
          ip := Some(Last(ips));
          ips := ips[..|ips| - 1];
          dates := dates[first := ips];
          if ips == [] {
            dates := dates - {first};
          }
      }
    }
  }

  function Last(ips: seq<Ip>): Ip
    requires ips != []
  {
    ips[|ips| - 1]
  }

  function Popped(dates: Dates, first: nat): Dates
    requires first in dates && dates[first] != []
  {
    Replaced(dates, first, dates[first][..|dates[first]| - 1])
  }

  // ---------------------------------------------------------------------------------------------
  // Both indexes describe the same peers

  type Peers = map<Ip, Peer>

  ghost predicate Distinct(ips: seq<Ip>) {
    forall i, j | 0 <= i < j < |ips| :: ips[i] != ips[j]
  }

  ghost predicate Bucket(ips: seq<Ip>, peers: Peers, until: nat) {
    && ips != []
    && Distinct(ips)
    && (forall ip :: ip in ips <==> ip in peers && peers[ip].excludeUntil == until)
  }

  ghost predicate Agree(dates: Dates, peers: Peers) {
    && (forall until | until in dates :: Bucket(dates[until], peers, until))
    && (forall ip | ip in peers :: peers[ip].address.ip == ip && peers[ip].excludeUntil in dates)
  }

  lemma {:induction false} RetainedContent(ips: seq<Ip>, ip: Ip)
    requires Distinct(ips)
    ensures forall x :: x in Retained(ips, ip) <==> x in ips && x != ip
    ensures Distinct(Retained(ips, ip))
  {
    if ips != [] {
      RetainedContent(ips[1..], ip);
      assert ips == [ips[0]] + ips[1..];
      assert ips[0] !in Retained(ips[1..], ip);
    }
  }

  /** Taking `ip` out of its bucket, whichever way, takes it out of the index. */
  lemma TakenOut(dates: Dates, peers: Peers, ip: Ip, ips: seq<Ip>)
    requires Agree(dates, peers) && ip in peers
    requires forall x :: x in ips <==> x in dates[peers[ip].excludeUntil] && x != ip
    requires Distinct(ips)
    ensures Agree(Replaced(dates, peers[ip].excludeUntil, ips), peers - {ip})
  {
  }

  lemma RemovedAgrees(dates: Dates, peers: Peers, ip: Ip)
    requires Agree(dates, peers) && ip in peers
    ensures peers[ip].excludeUntil in dates
    ensures Agree(Replaced(dates, peers[ip].excludeUntil, Retained(dates[peers[ip].excludeUntil], ip)), peers - {ip})
  {
    var ips := dates[peers[ip].excludeUntil];
    assert Bucket(ips, peers, peers[ip].excludeUntil);
    RetainedContent(ips, ip);
    hide Retained, Distinct, Replaced;
    TakenOut(dates, peers, ip, Retained(ips, ip));
  }

  lemma InsertedAgrees(dates: Dates, peers: Peers, peer: Peer)
    requires Agree(dates, peers) && peer.address.ip !in peers
    ensures Agree(Inserted(dates, peer.address.ip, peer.excludeUntil), peers[peer.address.ip := peer])
  {
  }

  /** The earliest date has the peers whose exclusion ends first. */
  lemma PoppedAgrees(dates: Dates, peers: Peers)
    requires Agree(dates, peers) && peers != map[]
    ensures forall d | d in dates :: dates[d] != []
    ensures var first := Cursor.LowerBound(dates.Keys, 0);
            && first.Some?
            && var ip := Last(dates[first.value]);
               && ip in peers && (forall other | other in peers :: peers[ip].excludeUntil <= peers[other].excludeUntil)
               && Agree(Popped(dates, first.value), peers - {ip})
  {
    forall d | d in dates ensures dates[d] != [] { assert Bucket(dates[d], peers, d); }
    var some :| some in peers;
    assert peers[some].excludeUntil in dates;
    var first := Cursor.LowerBound(dates.Keys, 0).value;
    var ips := dates[first];
    assert Bucket(ips, peers, first);
    var ip := Last(ips);
    assert ip in ips;
    assert ips == ips[..|ips| - 1] + [ip];
    assert Distinct(ips[..|ips| - 1]);
    hide Distinct, Replaced;
    TakenOut(dates, peers, ip, ips[..|ips| - 1]);
  }

  // ---------------------------------------------------------------------------------------------
  // The container

  /** The peers that are gone are those whose exclusion ends first. */
  ghost predicate Reduced(before: Peers, after: Peers) {
    && after.Keys <= before.Keys
    && (forall ip | ip in after :: after[ip] == before[ip])
    && (forall gone, kept | gone in before && gone !in after && kept in after ::
          before[gone].excludeUntil <= before[kept].excludeUntil)
  }

  lemma ReducedStep(before: Peers, after: Peers, ip: Ip)
    requires Reduced(before, after) && ip in after
    requires forall other | other in after :: after[ip].excludeUntil <= after[other].excludeUntil
    ensures Reduced(before, after - {ip}) && |after - {ip}| == |after| - 1
  {
  }

  /** Peers are evicted in the order of their exclusion ends, and no more than needed to make room. */
  ghost predicate Evicted(before: Peers, after: Peers, maxSize: nat) {
    && Reduced(before, after)
    && (|after| <= 1 || |after| < maxSize)
    && (after != before ==> |after| + 1 >= maxSize && |after| >= 1)
  }

  /** The answer to whether an address is excluded. */
  predicate Excluded(peers: Peers, permaBans: set<Address>, address: Address, now: nat) {
    address in permaBans || (address.ip in peers && peers[address.ip].IsExcluded(now))
  }

  /** An address is excluded if it is banned for good, or its peer has two offences and time to serve. */
  lemma ExcludedMeans(peers: Peers, permaBans: set<Address>, address: Address, now: nat)
    ensures address in permaBans ==> Excluded(peers, permaBans, address, now)
    ensures address !in permaBans && address.ip !in peers ==> !Excluded(peers, permaBans, address, now)
    ensures address !in permaBans && address.ip in peers ==>
              (Excluded(peers, permaBans, address, now) <==>
               peers[address.ip].score >= 2 && now < peers[address.ip].excludeUntil)
  {
  }

  /** Dropping an expired peer changes no answer from then on, for any address. */
  lemma DroppingExpired(peers: Peers, permaBans: set<Address>, ip: Ip, now: nat, address: Address, later: nat)
    requires ip in peers && peers[ip].HasExpired(now) && now <= later
    ensures Excluded(peers - {ip}, permaBans, address, later) == Excluded(peers, permaBans, address, later)
  {
  }

  function Max(a: nat, b: nat): nat { if a < b then b else a }

  class PeerExclusion {
    const orderedByDate: PeersOrderedByExclusionDate
    var byIp: Peers
    const maxSize: nat
    var permaBans: set<Address>

    ghost predicate Valid()
      reads this, orderedByDate
    {
      Agree(orderedByDate.dates, byIp) && |byIp| <= Max(2, maxSize)
    }

    constructor (maxSize: nat)
      ensures Valid() && byIp == map[] && permaBans == {} && this.maxSize == maxSize && fresh(orderedByDate)
    {
      orderedByDate := new PeersOrderedByExclusionDate();
      byIp, this.maxSize, permaBans := map[], maxSize, {};
    }

    method CleanOldPeers()
      requires Valid()
      modifies this`byIp, orderedByDate
      ensures Agree(orderedByDate.dates, byIp) && Evicted(old(byIp), byIp, maxSize)
    {
      assert Reduced(byIp, byIp);
      hide Agree, Bucket, Popped, Reduced, Last;
      while |byIp| > 1 && |byIp| >= maxSize
        invariant Agree(orderedByDate.dates, byIp)
        invariant Reduced(old(byIp), byIp)
        invariant byIp != old(byIp) ==> |byIp| + 1 >= maxSize && |byIp| >= 1
        decreases |byIp|
      {
        PoppedAgrees(orderedByDate.dates, byIp);
        var ip := orderedByDate.Pop();
        ReducedStep(old(byIp), byIp, ip.value);
        byIp := byIp - {ip.value};
      }
    }

    method Remove(address: Address)
      requires Valid()
      modifies this`byIp, orderedByDate
      ensures Valid() && byIp == old(byIp) - {address.ip}
    {
      if address.ip in byIp {
        var item := byIp[address.ip];
        RemovedAgrees(orderedByDate.dates, byIp, address.ip);
        hide Agree, Replaced, Retained;
        byIp := byIp - {address.ip};
        orderedByDate.Remove(address.ip, item.excludeUntil);
      }
    }

    method Insert(peer: Peer)
      requires Agree(orderedByDate.dates, byIp) && peer.address.ip !in byIp
      modifies this`byIp, orderedByDate
      ensures Agree(orderedByDate.dates, byIp) && byIp == old(byIp)[peer.address.ip := peer]
    {
      InsertedAgrees(orderedByDate.dates, byIp, peer);
      hide Agree, Inserted;
      orderedByDate.Insert(peer.address.ip, peer.excludeUntil);
      byIp := byIp[peer.address.ip := peer];
    }

    /**
      A known peer gets a higher score and a new exclusion end; an unknown one is added with score 1
      after room was made for it.
     */
    method PeerMisbehaved(endpoint: Address, now: nat) returns (score: nat)
      requires Valid()
      modifies this`byIp, orderedByDate
      ensures Valid()
      ensures endpoint.ip in byIp && score == byIp[endpoint.ip].score
      ensures endpoint.ip in old(byIp) ==>
                byIp == old(byIp)[endpoint.ip := old(byIp)[endpoint.ip].Misbehaved(now)]
      ensures endpoint.ip !in old(byIp) ==>
                exists kept :: Evicted(old(byIp), kept, maxSize) && byIp == kept[endpoint.ip := NewPeer(endpoint, now)]
    {
      if endpoint.ip in byIp {
        var before := byIp[endpoint.ip];
        var peer := before.Misbehaved(now);
        Updated(orderedByDate.dates, byIp, peer);
        hide Agree, Inserted, Replaced, Retained;
        byIp := byIp[endpoint.ip := peer];
        if peer.excludeUntil != before.excludeUntil {
          orderedByDate.Remove(peer.address.ip, before.excludeUntil);
          orderedByDate.Insert(peer.address.ip, peer.excludeUntil);
        }
        score := peer.score;
      } else {
        CleanOldPeers();
        var peer := NewPeer(endpoint, now);
        hide Agree;
        Insert(peer);
        score := peer.score;
      }
    }

    method PermaBan(address: Address)
      requires Valid()
      modifies this`permaBans
      ensures Valid() && permaBans == old(permaBans) + {address}
      ensures forall now: nat :: Excluded(byIp, permaBans, address, now)
    {
      permaBans := permaBans + {address};
    }

    /** The answer is that of the state before the call; an expired peer is dropped on the way. */
    method IsExcluded(address: Address, now: nat) returns (excluded: bool)
      requires Valid()
      modifies this`byIp, orderedByDate
      ensures Valid() && excluded == Excluded(old(byIp), permaBans, address, now)
      ensures byIp == old(byIp) || byIp == old(byIp) - {address.ip}
      ensures forall other: Address, later: nat | now <= later ::
                Excluded(byIp, permaBans, other, later) == Excluded(old(byIp), permaBans, other, later)
    {
      if address in permaBans { return true; }
      if address.ip in byIp {
        var peer := byIp[address.ip];
        if peer.HasExpired(now) {
          forall other: Address, later: nat | now <= later
            ensures Excluded(byIp - {address.ip}, permaBans, other, later) == Excluded(byIp, permaBans, other, later)
          {
            DroppingExpired(byIp, permaBans, address.ip, now, other, later);
          }
          hide Agree, Excluded;
          assert peer.address.ip == address.ip;
          Remove(peer.address);
        }
        excluded := peer.IsExcluded(now);
      } else {
        excluded := false;
      }
    }
  }

  lemma Updated(dates: Dates, peers: Peers, peer: Peer)
    requires Agree(dates, peers) && peer.address.ip in peers
    ensures var ip, until := peer.address.ip, peers[peer.address.ip].excludeUntil;
            && until in dates
            && (peer.excludeUntil == until ==> Agree(dates, peers[ip := peer]))
            && Agree(Inserted(Replaced(dates, until, Retained(dates[until], ip)), ip, peer.excludeUntil), peers[ip := peer])
  {
    var ip := peer.address.ip;
    RemovedAgrees(dates, peers, ip);
    InsertedAgrees(Replaced(dates, peers[ip].excludeUntil, Retained(dates[peers[ip].excludeUntil], ip)), peers - {ip}, peer);
    assert (peers - {ip})[ip := peer] == peers[ip := peer];
    hide Retained, Inserted, Replaced, Distinct;
    if peer.excludeUntil == peers[ip].excludeUntil {
      forall d | d in dates ensures Bucket(dates[d], peers[ip := peer], d) { assert Bucket(dates[d], peers, d); }
    }
  }
}
