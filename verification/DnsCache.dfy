/** The address-to-hostname cache: a time-to-live map, and what it remembers of its history. */
module DnsCache {
  import opened Bytes
  import opened DnsMessage
  import DnsName
  import DnsWire

  datatype Entry = Entry(domain: Text, expires: nat)

  type Entries = map<IpAddr, Entry>

  /** A change to the cache, with the clock reading it used. */
  datatype Event = Store(ip: IpAddr, domain: Text, at: nat) | Purge(at: nat)

  function Apply(ttl: nat, entries: Entries, e: Event): Entries {
    match e
    case Store(ip, domain, at) => if domain == [] then entries else entries[ip := Entry(domain, at + ttl)]
    case Purge(at) => map ip | ip in entries && entries[ip].expires > at :: entries[ip]
  }

  function RunFrom(ttl: nat, entries: Entries, events: seq<Event>): Entries {
    if events == [] then entries else Apply(ttl, RunFrom(ttl, entries, events[..|events| - 1]), events[|events| - 1])
  }

  function LookupIn(entries: Entries, ip: IpAddr, now: nat): Option<Text> {
    if ip in entries && entries[ip].expires > now then Some(entries[ip].domain) else None
  }

  function LiveIn(entries: Entries, now: nat): set<IpAddr> {
    set ip | ip in entries && entries[ip].expires > now
  }

  /** The stores a snooped response makes; `clock(i)` is the reading for the i-th of them. */
  function SnoopEvents(answers: seq<Answer>, clock: nat -> nat): seq<Event> {
    seq(|answers|, i requires 0 <= i < |answers| => Store(answers[i].ip, answers[i].name, clock(i)))
  }

  lemma NothingSnooped(answers: seq<Answer>, clock: nat -> nat)
    ensures SnoopEvents(answers[..0], clock) == []
  {
  }

  lemma SnoopNext(answers: seq<Answer>, clock: nat -> nat, i: nat)
    requires i < |answers|
    ensures SnoopEvents(answers[..i + 1], clock)
         == SnoopEvents(answers[..i], clock) + [Store(answers[i].ip, answers[i].name, clock(i))]
  {
  }

  class Cache {
    var entries: Entries
    const ttl: nat
    /** Every change made so far, with its clock reading. */
    ghost var history: seq<Event>

    ghost predicate Valid()
      reads this
    {
      entries == Run(ttl, history)
    }

    constructor (ttl: nat)
      ensures Valid() && this.ttl == ttl && history == []
    {
      entries := map[];
      this.ttl := ttl;
      history := [];
    }

    method StoreName(ip: IpAddr, domain: Text, now: nat)
      requires Valid()
      modifies this
      ensures Valid() && history == old(history) + [Store(ip, domain, now)]
    {
      RunSnoc(ttl, history, Store(ip, domain, now));
      history := history + [Store(ip, domain, now)];
      if domain == [] {
        return;
      }
      entries := entries[ip := Entry(domain, now + ttl)];
    }

    /** The latest name given to the address over all calls so far, while it has not expired. */
    method Lookup(ip: IpAddr, now: nat) returns (name: Option<Text>)
      requires Valid()
      ensures name == LookupIn(entries, ip, now)
      ensures Ordered(history, now) ==> name == Remembered(ttl, history, ip, now)
    {
      hide Run, Remembered;
      if Ordered(history, now) {
        CacheAgreesWithHistory(ttl, history, ip, now);
      }
      if ip !in entries {
        return None;
      }
      var entry := entries[ip];
      return if entry.expires > now then Some(entry.domain) else None;
    }

    method PurgeExpired(now: nat)
      requires Valid()
      modifies this
      ensures Valid() && history == old(history) + [Purge(now)]
    {
      hide Run;
      RunSnoc(ttl, history, Purge(now));
      var kept: Entries, rest := map[], entries.Keys;
      while rest != {}
        invariant rest <= entries.Keys
        invariant kept == map ip | ip in entries && ip !in rest && entries[ip].expires > now :: entries[ip]
        decreases |rest|
      {
        var ip :| ip in rest;
        if entries[ip].expires > now {
          kept := kept[ip := entries[ip]];
        }
        rest := rest - {ip};
      }
      entries := kept;
      history := history + [Purge(now)];
    }

    /** How many addresses history still remembers. */
    method Len(now: nat) returns (n: nat)
      requires Valid()
      ensures n == |LiveIn(entries, now)|
      ensures Ordered(history, now) ==> n == |RememberedIn(ttl, history, now)|
    {
      hide Run, RememberedIn;
      if Ordered(history, now) {
        LengthCountsRemembered(ttl, history, now);
      }
      n := 0;
      var rest := entries.Keys;
      ghost var counted: set<IpAddr> := {};
      while rest != {}
        invariant rest <= entries.Keys && counted !! rest
        invariant n == |counted| && counted == set ip | ip in entries && ip !in rest && entries[ip].expires > now
        decreases |rest|
      {
        var ip :| ip in rest;
        if entries[ip].expires > now {
          n := n + 1;
          counted := counted + {ip};
        }
        rest := rest - {ip};
      }
      assert counted == LiveIn(entries, now);
    }

    method SnoopResponse(payload: seq<Byte>, clock: nat -> nat)
      requires Valid()
      modifies this
      ensures Valid() && history == old(history) + SnoopEvents(DnsAnswers(payload), clock)
    {
      hide Run, DnsAnswers, SnoopEvents;
      var answers := ParseDnsAnswers(payload);
      NothingSnooped(answers, clock);
      for i := 0 to |answers|
        invariant Valid() && history == old(history) + SnoopEvents(answers[..i], clock)
      {
        SnoopNext(answers, clock, i);
        StoreName(answers[i].ip, answers[i].name, clock(i));
      }
      assert answers[..|answers|] == answers;
    }
  }

  // ---- History ----

  function Run(ttl: nat, events: seq<Event>): Entries { RunFrom(ttl, map[], events) }

  lemma RunSnoc(ttl: nat, events: seq<Event>, e: Event)
    ensures Run(ttl, events + [e]) == Apply(ttl, Run(ttl, events), e)
  {
    assert (events + [e])[..|events|] == events;
  }

  /** Clock readings never go back, and none is later than `now`. */
  predicate Ordered(events: seq<Event>, now: nat) {
    && (forall i, j :: 0 <= i <= j < |events| ==> events[i].at <= events[j].at)
    && (forall i :: 0 <= i < |events| ==> events[i].at <= now)
  }

  predicate StoresFor(e: Event, ip: IpAddr) { e.Store? && e.ip == ip && e.domain != [] }

  /** The last store that named `ip`, if any. */
  function Latest(events: seq<Event>, ip: IpAddr): (e: Option<Event>)
    ensures e.Some? ==> e.value in events && StoresFor(e.value, ip)
    ensures e.None? ==> forall f :: f in events ==> !StoresFor(f, ip)
  {
    if events == [] then None
    else
      var last := events[|events| - 1];
      if StoresFor(last, ip) then Some(last) else Latest(events[..|events| - 1], ip)
  }

  /** What history says of `ip` at `now`: the latest name given to it, within its time to live. */
  function Remembered(ttl: nat, events: seq<Event>, ip: IpAddr, now: nat): Option<Text> {
    match Latest(events, ip)
    case None => None
    case Some(e) => if e.at + ttl > now then Some(e.domain) else None
  }

  /** The addresses stored at some time whose name is still remembered. */
  function RememberedIn(ttl: nat, events: seq<Event>, now: nat): set<IpAddr> {
    set e | e in events && e.Store? && Remembered(ttl, events, e.ip, now).Some? :: e.ip
  }

  /** An entry, when present, is that of the latest store; when absent, that store has expired. */
  ghost predicate Faithful(ttl: nat, events: seq<Event>, ip: IpAddr, clock: nat) {
    var entries, latest := Run(ttl, events), Latest(events, ip);
    && (ip in entries ==> latest.Some? && entries[ip] == Entry(latest.value.domain, latest.value.at + ttl))
    && (ip !in entries && latest.Some? ==> latest.value.at + ttl <= clock)
  }

  lemma {:induction false} RunIsFaithful(ttl: nat, events: seq<Event>, ip: IpAddr, now: nat)
    requires Ordered(events, now)
    ensures Faithful(ttl, events, ip, now)
    decreases |events|
  {
    if events != [] {
      var before, last := events[..|events| - 1], events[|events| - 1];
      RunIsFaithful(ttl, before, ip, last.at);
    }
  }

  /** For every history at non-decreasing times, a lookup answers the latest non-empty name
      stored for the address exactly while store time plus time to live is later than now. */
  lemma CacheAgreesWithHistory(ttl: nat, events: seq<Event>, ip: IpAddr, now: nat)
    requires Ordered(events, now)
    ensures LookupIn(Run(ttl, events), ip, now) == Remembered(ttl, events, ip, now)
  {
    RunIsFaithful(ttl, events, ip, now);
  }

  /** The cache's length counts exactly the addresses history still remembers. */
  lemma LengthCountsRemembered(ttl: nat, events: seq<Event>, now: nat)
    requires Ordered(events, now)
    ensures LiveIn(Run(ttl, events), now) == RememberedIn(ttl, events, now)
  {
    hide Remembered, Latest, RunFrom;
    var live := LiveIn(Run(ttl, events), now);
    var remembered := RememberedIn(ttl, events, now);
    forall ip ensures ip in live <==> ip in remembered {
      CacheAgreesWithHistory(ttl, events, ip, now);
      if Remembered(ttl, events, ip, now).Some? {
        RememberedWasStored(ttl, events, ip, now);
      }
    }
  }

  lemma RememberedWasStored(ttl: nat, events: seq<Event>, ip: IpAddr, now: nat)
    requires Remembered(ttl, events, ip, now).Some?
    ensures exists e :: e in events && e.Store? && e.ip == ip
  {
  }

  function Unpurged(events: seq<Event>): seq<Event> {
    if events == [] then []
    else
      var before, last := Unpurged(events[..|events| - 1]), events[|events| - 1];
      if last.Purge? then before else before + [last]
  }

  lemma {:induction false} UnpurgedOrdered(events: seq<Event>, now: nat)
    requires Ordered(events, now)
    ensures Ordered(Unpurged(events), now)
    decreases |events|
  {
    if events != [] {
      var before, last := events[..|events| - 1], events[|events| - 1];
      UnpurgedOrdered(before, last.at);
    }
  }

  lemma LatestSnoc(events: seq<Event>, e: Event, ip: IpAddr)
    ensures Latest(events + [e], ip) == if StoresFor(e, ip) then Some(e) else Latest(events, ip)
  {
    assert (events + [e])[..|events|] == events;
  }

  lemma {:induction false} UnpurgedKeepsLatest(events: seq<Event>, ip: IpAddr)
    ensures Latest(Unpurged(events), ip) == Latest(events, ip)
  {
    hide Latest;
    if events != [] {
      var before, last := events[..|events| - 1], events[|events| - 1];
      UnpurgedKeepsLatest(before, ip);
      LatestSnoc(before, last, ip);
      LatestSnoc(Unpurged(before), last, ip);
      assert events == before + [last];
    }
  }

  /** No lookup can tell whether expired entries were ever purged. */
  lemma PurgingIsUnobservable(ttl: nat, events: seq<Event>, ip: IpAddr, now: nat)
    requires Ordered(events, now)
    ensures LookupIn(Run(ttl, events), ip, now) == LookupIn(Run(ttl, Unpurged(events)), ip, now)
  {
    hide RunFrom, Latest, Unpurged;
    UnpurgedOrdered(events, now);
    UnpurgedKeepsLatest(events, ip);
    CacheAgreesWithHistory(ttl, events, ip, now);
    CacheAgreesWithHistory(ttl, Unpurged(events), ip, now);
  }

  // ---- From the wire to a lookup ----

  lemma {:induction false} ExpectedNames(rs: seq<DnsWire.Record>, qname: Text)
    ensures forall i :: 0 <= i < |DnsWire.Expected(rs, qname)| ==> DnsWire.Expected(rs, qname)[i].name == qname
  {
    if rs != [] {
      ExpectedNames(rs[1..], qname);
    }
  }

  lemma {:induction false} LatestOfSnoop(events: seq<Event>, snooped: seq<Event>, ip: IpAddr, qname: Text)
    requires forall i :: 0 <= i < |snooped| ==> snooped[i].Store? && snooped[i].domain == qname
    requires qname != [] && exists i :: 0 <= i < |snooped| && snooped[i].ip == ip
    ensures Latest(events + snooped, ip).Some? && Latest(events + snooped, ip).value in snooped
    decreases |snooped|
  {
    var all, n := events + snooped, |snooped| - 1;
    assert all[|all| - 1] == snooped[n];
    if snooped[n].ip != ip {
      assert all[..|all| - 1] == events + snooped[..n];
      var i :| 0 <= i < |snooped| && snooped[i].ip == ip;
      assert snooped[..n][i].ip == ip;
      LatestOfSnoop(events, snooped[..n], ip, qname);
    }
  }

  /** After a response was snooped, on top of any history, each address it answered with is found
      under the name of its first question until the time to live runs out. */
  lemma SnoopedNamesAreFound(
    ttl: nat, events: seq<Event>, r: DnsWire.Response, more: seq<Byte>, clock: nat -> nat, ip: IpAddr, now: nat)
    requires DnsWire.WellFormed(r)
    requires var qname := DnsName.DotJoin(r.questions[0].name.labels);
             qname != [] && Answer(ip, qname) in DnsWire.Expected(r.answers, qname)
    requires Ordered(events + SnoopEvents(DnsAnswers(DnsWire.Encode(r) + more), clock), now)
    requires forall i :: 0 <= i < |r.answers| ==> clock(i) + ttl > now
    ensures LookupIn(Run(ttl, events + SnoopEvents(DnsAnswers(DnsWire.Encode(r) + more), clock)), ip, now)
         == Some(DnsName.DotJoin(r.questions[0].name.labels))
  {
    hide DnsWire.QuestionsOk, DnsWire.RecordsOk, DnsWire.Encode, DnsAnswers, DnsWire.Expected, DnsName.DotJoin, Latest, RunFrom, Ordered;
    var qname := DnsName.DotJoin(r.questions[0].name.labels);
    var answers := DnsWire.Expected(r.answers, qname);
    DnsWire.RoundTrip(r, more);
    ExpectedNames(r.answers, qname);
    ExpectedLength(r.answers, qname);
    var snooped := SnoopEvents(answers, clock);
    var k :| 0 <= k < |answers| && answers[k] == Answer(ip, qname);
    assert snooped[k].ip == ip;
    LatestOfSnoop(events, snooped, ip, qname);
    CacheAgreesWithHistory(ttl, events + snooped, ip, now);
  }

  lemma {:induction false} ExpectedLength(rs: seq<DnsWire.Record>, qname: Text)
    ensures |DnsWire.Expected(rs, qname)| <= |rs|
  {
    if rs != [] {
      ExpectedLength(rs[1..], qname);
    }
  }

  /** On a cache after any number of calls: snooping a response and then looking up one of its addresses
      finds the name of its first question. */
  method SnoopThenLookup(
    cache: Cache, r: DnsWire.Response, more: seq<Byte>, clock: nat -> nat, ip: IpAddr, now: nat)
    returns (name: Option<Text>)
    requires cache.Valid() && DnsWire.WellFormed(r)
    requires var qname := DnsName.DotJoin(r.questions[0].name.labels);
             qname != [] && Answer(ip, qname) in DnsWire.Expected(r.answers, qname)
    requires Ordered(cache.history + SnoopEvents(DnsAnswers(DnsWire.Encode(r) + more), clock), now)
    requires forall i :: 0 <= i < |r.answers| ==> clock(i) + cache.ttl > now
    modifies cache
    ensures cache.Valid() && name == Some(DnsName.DotJoin(r.questions[0].name.labels))
  {
    hide DnsWire.WellFormed, DnsWire.Encode, DnsAnswers, DnsWire.Expected, DnsName.DotJoin, Run, Ordered, Remembered;
    SnoopedNamesAreFound(cache.ttl, cache.history, r, more, clock, ip, now);
    cache.SnoopResponse(DnsWire.Encode(r) + more, clock);
    name := cache.Lookup(ip, now);
  }
}
