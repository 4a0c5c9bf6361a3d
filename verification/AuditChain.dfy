/** The hash-chained audit ring, for an arbitrary digest. */
module AuditChain {
  /** A record; schema version, wall-clock time and world revision are not covered by the hash and left out. */
  datatype Record = Record(eventId: string, previousHash: string, currentHash: string, actor: string)

  type Digest = string -> string
  type Hash = (string, string, string) -> string

  /** What the digest is applied to. */
  function Join(eventId: string, previousHash: string, actor: string): string {
    eventId + "-" + previousHash + "-" + actor
  }

  /** `AuditRecord::compute_hash` over a given digest. */
  function ComputeHash(md5: Digest): Hash {
    (e: string, p: string, a: string) => md5(Join(e, p, a))
  }

  ghost predicate Intact(h: Hash, r: Record) {
    r.currentHash == h(r.eventId, r.previousHash, r.actor)
  }

  /** What a successful integrity check establishes. */
  ghost predicate Verifies(h: Hash, records: seq<Record>) {
    && (forall i :: 0 <= i < |records| ==> Intact(h, records[i]))
    && (forall i :: 0 <= i < |records| - 1 ==> records[i + 1].previousHash == records[i].currentHash)
  }

  /** The hash the next record must name. */
  function LastHash(records: seq<Record>): string {
    if records == [] then "genesis" else records[|records| - 1].currentHash
  }

  function NextRecord(h: Hash, records: seq<Record>, eventId: string, actor: string): Record {
    var previous := LastHash(records);
    Record(eventId, previous, h(eventId, previous, actor), actor)
  }

  datatype Integrity = Sound | TamperedRecord | BrokenChain

  class AuditChain {
    var records: seq<Record>
    const maxRecords: nat
    const md5: Digest

    constructor (maxRecords: nat, md5: Digest)
      ensures records == [] && this.md5 == md5
      ensures this.maxRecords == if maxRecords < 1 then 1 else if maxRecords > 100_000 then 100_000 else maxRecords
    {
      records := [];
      this.maxRecords := if maxRecords < 1 then 1 else if maxRecords > 100_000 then 100_000 else maxRecords;
      this.md5 := md5;
    }

    method Append(eventId: string, actor: string)
      modifies this
      ensures records == Appended(ComputeHash(md5), maxRecords, old(records), eventId, actor)
    {
      var previousHash := if records == [] then "genesis" else records[|records| - 1].currentHash;
      var currentHash := ComputeHash(md5)(eventId, previousHash, actor);
      var record := Record(eventId, previousHash, currentHash, actor);
      if |records| >= maxRecords && records != [] {
        records := records[1..];
      }
      records := records + [record];
    }

    /** Reports success exactly on chains that verify, and otherwise the first defect in order. */
    method VerifyIntegrity() returns (r: Integrity)
      ensures r.Sound? <==> Verifies(ComputeHash(md5), records)
      ensures r.TamperedRecord? ==> exists i :: 0 <= i < |records| && !Intact(ComputeHash(md5), records[i])
                                                && Verifies(ComputeHash(md5), records[..i])
      ensures r.BrokenChain? ==>
          exists i :: 0 <= i < |records| - 1 && records[i + 1].previousHash != records[i].currentHash
                                             && Verifies(ComputeHash(md5), records[..i + 1])
    {
      for i := 0 to |records|
        invariant Verifies(ComputeHash(md5), records[..i])
        invariant 0 < i < |records| ==> records[i].previousHash == records[i - 1].currentHash
      {
        var record := records[i];
        assert records[..i + 1][..i] == records[..i];
        var expected := ComputeHash(md5)(record.eventId, record.previousHash, record.actor);
        if record.currentHash != expected {
          assert !Intact(ComputeHash(md5), records[i]);
          return TamperedRecord;
        }
        if i + 1 < |records| && records[i + 1].previousHash != record.currentHash {
          return BrokenChain;
        }
      }
      assert records[..|records|] == records;
      return Sound;
    }
  }

  // ----- appending -----

  function Appended(h: Hash, maxRecords: nat, records: seq<Record>, eventId: string, actor: string): seq<Record> {
    (if |records| >= maxRecords && records != [] then records[1..] else records)
        + [NextRecord(h, records, eventId, actor)]
  }

  type Event = (string, string)

  /** The ring after a sequence of (event id, actor) appends. */
  function Run(h: Hash, maxRecords: nat, events: seq<Event>): seq<Record> {
    if events == [] then []
    else
      var (eventId, actor) := events[|events| - 1];
      Appended(h, maxRecords, Run(h, maxRecords, events[..|events| - 1]), eventId, actor)
  }

  /** The chain that never evicts. */
  function History(h: Hash, events: seq<Event>): seq<Record> {
    if events == [] then []
    else
      var (eventId, actor) := events[|events| - 1];
      var before := History(h, events[..|events| - 1]);
      before + [NextRecord(h, before, eventId, actor)]
  }

  lemma {:induction false} HistoryVerifies(h: Hash, events: seq<Event>)
    ensures Verifies(h, History(h, events)) && |History(h, events)| == |events|
    ensures forall i :: 0 <= i < |events| ==>
        History(h, events)[i].eventId == events[i].0 && History(h, events)[i].actor == events[i].1
    ensures events != [] ==> History(h, events)[0].previousHash == "genesis"
  {
    if events != [] {
      HistoryVerifies(h, events[..|events| - 1]);
    }
  }

  /** Appending to the end of a history and to the whole of it adds the same record. */
  lemma SuffixAppend(h: Hash, maxRecords: nat, r: seq<Record>, all: seq<Record>, eventId: string, actor: string)
    requires maxRecords > 0 && |r| == (if |all| < maxRecords then |all| else maxRecords) && r == all[|all| - |r|..]
    ensures var r' := Appended(h, maxRecords, r, eventId, actor);
            var all' := all + [NextRecord(h, all, eventId, actor)];
            && |r'| == (if |all'| < maxRecords then |all'| else maxRecords)
            && r' == all'[|all'| - |r'|..]
  {
    assert LastHash(r) == LastHash(all);
    hide LastHash;
  }

  /** The ring is the end of the full history, evictions or not. */
  lemma {:induction false} RunIsSuffix(h: Hash, maxRecords: nat, events: seq<Event>)
    requires maxRecords > 0
    ensures var r, all := Run(h, maxRecords, events), History(h, events);
            && |r| == (if |events| < maxRecords then |events| else maxRecords) && |all| == |events|
            && r == all[|all| - |r|..]
  {
    hide Appended, NextRecord;
    if events != [] {
      var front := events[..|events| - 1];
      var (eventId, actor) := events[|events| - 1];
      RunIsSuffix(h, maxRecords, front);
      SuffixAppend(h, maxRecords, Run(h, maxRecords, front), History(h, front), eventId, actor);
    }
  }

  /** Any run of appends passes the integrity check, ring eviction included. */
  lemma AppendsVerify(h: Hash, maxRecords: nat, events: seq<Event>)
    requires maxRecords > 0
    ensures Verifies(h, Run(h, maxRecords, events))
  {
    RunIsSuffix(h, maxRecords, events);
    HistoryVerifies(h, events);
  }

  // ----- what the last hash pins down, for any hash of three fields -----

  ghost predicate CollisionFree(h: Hash) {
    forall e, p, a, e', p', a' :: h(e, p, a) == h(e', p', a') ==> e == e' && p == p' && a == a'
  }

  /** Two records at the same place differ in what is hashed and yet have one hash. */
  ghost predicate FieldsCollide(h: Hash, c: seq<Record>, d: seq<Record>)
    requires |c| == |d|
  {
    exists i :: 0 <= i < |c| && c[i] != d[i] && Intact(h, c[i]) && Intact(h, d[i])
        && c[i].currentHash == d[i].currentHash
  }

  /** The last hash determines the whole chain, or else the two chains at hand exhibit a collision. */
  lemma {:induction false} LastHashDetermines(h: Hash, c: seq<Record>, d: seq<Record>)
    requires Verifies(h, c) && Verifies(h, d) && |c| == |d| && LastHash(c) == LastHash(d)
    ensures c == d || FieldsCollide(h, c, d)
    ensures CollisionFree(h) ==> c == d
  {
    if c != [] {
      var n := |c| - 1;
      assert Intact(h, c[n]) && Intact(h, d[n]);
      if c[n] == d[n] && n > 0 {
        ChainLink(h, c);
        ChainLink(h, d);
        LastHashDetermines(h, c[..n], d[..n]);
        assert c == c[..n] + [c[n]] && d == d[..n] + [d[n]];
        if FieldsCollide(h, c[..n], d[..n]) {
          var i :| 0 <= i < n && c[..n][i] != d[..n][i] && Intact(h, c[..n][i]) && Intact(h, d[..n][i])
                   && c[..n][i].currentHash == d[..n][i].currentHash;
          assert c[i] != d[i] && Intact(h, c[i]) && Intact(h, d[i]);
        }
      }
    }
  }

  lemma ChainLink(h: Hash, c: seq<Record>)
    requires Verifies(h, c) && |c| > 1
    ensures var n := |c| - 1;
            Verifies(h, c[..n]) && LastHash(c[..n]) == c[n].previousHash == c[n - 1].currentHash
            && c[n - 1].currentHash == h(c[n - 1].eventId, c[n - 1].previousHash, c[n - 1].actor)
  {
    var n := |c| - 1;
    assert Intact(h, c[n - 1]);
    assert c[n - 1 + 1].previousHash == c[n - 1].currentHash;
  }

  /** The fields are joined without escaping, so whatever the digest the hash is not collision-free on its fields:
      one append each, to two empty rings, and the rings differ under the same last hash. */
  lemma JoinCollides(md5: Digest, maxRecords: nat)
    requires maxRecords > 0
    ensures var h := ComputeHash(md5);
            var c, d := Run(h, maxRecords, [("x-genesis-y", "z")]), Run(h, maxRecords, [("x", "y-genesis-z")]);
            && Verifies(h, c) && Verifies(h, d) && |c| == |d| == 1 && LastHash(c) == LastHash(d)
            && c[0].eventId != d[0].eventId && c[0].actor != d[0].actor
    ensures !CollisionFree(ComputeHash(md5))
  {
    var h := ComputeHash(md5);
    var a: seq<Event>, b: seq<Event> := [("x-genesis-y", "z")], [("x", "y-genesis-z")];
    assert Join("x-genesis-y", "genesis", "z") == "x-genesis-y-genesis-z" == Join("x", "genesis", "y-genesis-z");
    assert a[..0] == [] && b[..0] == [];
    AppendsVerify(h, maxRecords, a);
    AppendsVerify(h, maxRecords, b);
    assert Run(h, maxRecords, a) == [NextRecord(h, [], "x-genesis-y", "z")];
    assert Run(h, maxRecords, b) == [NextRecord(h, [], "x", "y-genesis-z")];
    assert h("x-genesis-y", "genesis", "z") == h("x", "genesis", "y-genesis-z");
  }

  // ----- how a joined text can be read -----

  predicate DashFree(s: string) {
    '-' !in s
  }

  /** The hashed text of a record. */
  function Text(r: Record): string {
    Join(r.eventId, r.previousHash, r.actor)
  }

  /** The `n` characters at `i` are everything between two dashes, or between a dash and an end. */
  predicate SegmentAt(s: string, i: nat, n: nat) {
    && i + n <= |s| && DashFree(s[i..i + n])
    && (i == 0 || s[i - 1] == '-') && (i + n == |s| || s[i + n] == '-')
  }

  /** No segment of length `n` in the event id but perhaps its first, none in the actor but perhaps its last. */
  ghost predicate ReadOnce(n: nat, eventId: string, actor: string) {
    && (forall i: nat :: i > 0 ==> !SegmentAt(eventId, i, n))
    && (forall i: nat :: i + n < |actor| ==> !SegmentAt(actor, i, n))
  }

  lemma JoinAt(e: string, p: string, a: string)
    ensures var t := Join(e, p, a);
            && |t| == |e| + |p| + |a| + 2 && t[..|e|] == e && t[|e|] == '-'
            && t[|e| + 1..|e| + 1 + |p|] == p && t[|e| + 1 + |p|] == '-' && t[|e| + 2 + |p|..] == a
  {
  }

  /** Where the middle of the text `t` stands. */
  ghost predicate Middle(t: string, at: nat, n: nat) {
    at + n + 1 < |t| && t[at] == '-' && t[at + 1 + n] == '-' && DashFree(t[at + 1..at + 1 + n])
  }

  lemma JoinMiddle(e: string, p: string, a: string)
    requires DashFree(p)
    ensures Middle(Join(e, p, a), |e|, |p|)
  {
    JoinAt(e, p, a);
  }

  /** Two dash-free middles do not overlap. */
  lemma MiddlesApart(t: string, at: nat, at': nat, n: nat)
    requires Middle(t, at, n) && Middle(t, at', n) && at < at'
    ensures at + n + 1 <= at'
  {
    var middle := t[at + 1..at + 1 + n];
    assert forall k :: 0 <= k < n ==> middle[k] == t[at + 1 + k] && middle[k] in middle;
  }

  lemma SegmentInPrefix(t: string, to: nat, at: nat, n: nat)
    requires Middle(t, at, n) && at + 1 + n <= to <= |t|
    ensures SegmentAt(t[..to], at + 1, n)
  {
    assert t[..to][at + 1..at + 1 + n] == t[at + 1..at + 1 + n];
  }

  lemma SegmentInSuffix(t: string, from: nat, at: nat, n: nat)
    requires Middle(t, at, n) && from <= at + 1
    ensures SegmentAt(t[from..], at + 1 - from, n) && at + 1 - from + n < |t[from..]|
  {
    assert t[from..][at + 1 - from..at + 1 - from + n] == t[at + 1..at + 1 + n];
  }

  /** A text whose middle is a digest has one reading unless a segment of an id can pass for a digest. */
  lemma OneReading(n: nat, e: string, p: string, a: string, e': string, p': string, a': string)
    requires Join(e, p, a) == Join(e', p', a') && |p| == |p'| == n && DashFree(p) && DashFree(p') && ReadOnce(n, e, a)
    ensures e' == e && p' == p && a' == a
  {
    var t := Join(e, p, a);
    JoinAt(e, p, a);
    JoinAt(e', p', a');
    JoinMiddle(e, p, a);
    JoinMiddle(e', p', a');
    hide Join, Middle, SegmentAt;
    if |e'| < |e| {
      MiddlesApart(t, |e'|, |e|, n);
      SegmentInPrefix(t, |e|, |e'|, n);
      assert false;
    } else if |e'| > |e| {
      MiddlesApart(t, |e|, |e'|, n);
      SegmentInSuffix(t, |e| + 2 + n, |e'|, n);
      assert false;
    }
  }

  /** A segment that can pass for a digest. */
  ghost function SegmentOf(n: nat, e: string, a: string): (segment: string)
    requires !ReadOnce(n, e, a)
    ensures |segment| == n && DashFree(segment)
    ensures (exists i: nat :: 0 < i <= i + n <= |e| && SegmentAt(e, i, n) && segment == e[i..i + n])
            || exists i: nat :: i + n < |a| && SegmentAt(a, i, n) && segment == a[i..i + n]
  {
    if exists i: nat :: i > 0 && SegmentAt(e, i, n) then var i: nat :| i > 0 && SegmentAt(e, i, n); e[i..i + n]
    else var i: nat :| i + n < |a| && SegmentAt(a, i, n); a[i..i + n]
  }

  lemma RereadEvent(e: string, i: nat, p: string, a: string) returns (e': string, a': string)
    requires i > 0 && SegmentAt(e, i, |p|) && p == e[i..i + |p|]
    ensures Join(e', p, a') == Join(e, p, a) && e' != e
  {
    e' := e[..i - 1];
    var rest := e[i + |p|..];
    assert e == e' + "-" + p + rest;
    a' := (if rest == "" then "" else rest[1..] + "-") + p + "-" + a;
    assert rest != "" ==> rest == "-" + rest[1..];
    hide SegmentAt;
    assert Join(e, p, a) == e' + "-" + p + (rest + "-" + p + "-" + a);
    assert rest + "-" + p + "-" + a == "-" + a';
  }

  lemma RereadActor(e: string, p: string, a: string, i: nat) returns (e': string, a': string)
    requires i + |p| < |a| && SegmentAt(a, i, |p|) && p == a[i..i + |p|]
    ensures Join(e', p, a') == Join(e, p, a) && e' != e
  {
    a' := a[i + |p| + 1..];
    var front := a[..i];
    assert a == front + p + "-" + a';
    e' := e + "-" + p + (if front == "" then "" else "-" + front[..i - 1]);
    assert front != "" ==> front == front[..i - 1] + "-";
    hide SegmentAt;
    assert Join(e, p, a) == (e + "-" + p + "-" + front) + (p + "-" + a');
    assert e + "-" + p + "-" + front == e' + "-";
  }

  /** Between two copies of the same middle, the text can be read the other way round. */
  lemma RereadAs(n: nat, e: string, a: string, p: string) returns (e': string, a': string)
    requires !ReadOnce(n, e, a) && p == SegmentOf(n, e, a)
    ensures Join(e', p, a') == Join(e, p, a) && e' != e
  {
    hide Join, SegmentAt, ReadOnce;
    if i: nat :| 0 < i <= i + n <= |e| && SegmentAt(e, i, n) && p == e[i..i + n] {
      e', a' := RereadEvent(e, i, p, a);
    } else {
      var i: nat :| i + n < |a| && SegmentAt(a, i, n) && p == a[i..i + n];
      e', a' := RereadActor(e, p, a, i);
    }
  }

  /** Other fields with the same text, when nothing is known about the middle. */
  lemma RereadAny(e: string, p: string, a: string) returns (e': string, p': string, a': string)
    requires !DashFree(e) || !DashFree(p) || !DashFree(a)
    ensures Join(e', p', a') == Join(e, p, a) && |e'| != |e|
  {
    if !DashFree(e) {
      var i :| 0 <= i < |e| && e[i] == '-';
      e', p', a' := e[..i], e[i + 1..], p + "-" + a;
      assert e == e[..i] + "-" + e[i + 1..];
    } else if !DashFree(p) {
      var i :| 0 <= i < |p| && p[i] == '-';
      e', p', a' := e + "-" + p[..i], p[i + 1..], a;
      assert p == p[..i] + "-" + p[i + 1..];
    } else {
      var i :| 0 <= i < |a| && a[i] == '-';
      e', p', a' := e + "-" + p, a[..i], a[i + 1..];
      assert a == a[..i] + "-" + a[i + 1..];
    }
    assert Join(e', p', a') == Join(e, p, a);
  }

  function Dashes(s: string): nat {
    if s == "" then 0 else (if s[0] == '-' then 1 else 0) + Dashes(s[1..])
  }

  lemma {:induction false} DashesAdd(s: string, t: string)
    ensures Dashes(s + t) == Dashes(s) + Dashes(t)
  {
    if s == "" {
      assert s + t == t;
    } else {
      assert (s + t)[1..] == s[1..] + t;
      DashesAdd(s[1..], t);
    }
  }

  lemma {:induction false} NoDashes(s: string)
    ensures Dashes(s) == 0 <==> DashFree(s)
  {
    if s != "" {
      NoDashes(s[1..]);
      assert s == [s[0]] + s[1..];
    }
  }

  lemma JoinDashes(e: string, p: string, a: string)
    ensures Dashes(Join(e, p, a)) == 2 + Dashes(e) + Dashes(p) + Dashes(a)
  {
    DashesAdd(e + "-" + p + "-", a);
    DashesAdd(e + "-" + p, "-");
    DashesAdd(e + "-", p);
    DashesAdd(e, "-");
    assert Dashes("-") == 1;
  }

  /** Text before the first dash is determined. */
  lemma FirstDash(e: string, x: string, e': string, x': string)
    requires DashFree(e) && DashFree(e') && e + "-" + x == e' + "-" + x'
    ensures e == e' && x == x'
  {
    var s := e + "-" + x;
    assert s[|e|] == '-' && s[|e'|] == '-';
    assert forall i :: 0 <= i < |e| ==> s[i] == e[i];
    assert forall i :: 0 <= i < |e'| ==> s[i] == e'[i];
    assert |e| == |e'|;
    assert e == s[..|e|] && x == s[|e| + 1..] && e' == s[..|e'|] && x' == s[|e'| + 1..];
  }

  lemma DashFreeUnique(e: string, p: string, a: string, e': string, p': string, a': string)
    requires DashFree(e) && DashFree(p) && DashFree(a) && Join(e', p', a') == Join(e, p, a)
    ensures e' == e && p' == p && a' == a
  {
    JoinDashes(e, p, a);
    JoinDashes(e', p', a');
    NoDashes(e);
    NoDashes(p);
    NoDashes(a);
    NoDashes(e');
    NoDashes(p');
    assert Join(e, p, a) == e + "-" + (p + "-" + a) && Join(e', p', a') == e' + "-" + (p' + "-" + a');
    FirstDash(e, p + "-" + a, e', p' + "-" + a');
    FirstDash(p, a, p', a');
  }

  /** Taken alone, a text has one reading exactly when none of its fields holds a dash. */
  lemma UniqueIffDashFree(e: string, p: string, a: string)
    ensures (forall e', p', a' :: Join(e', p', a') == Join(e, p, a) ==> e' == e && p' == p && a' == a)
            <==> DashFree(e) && DashFree(p) && DashFree(a)
  {
    if DashFree(e) && DashFree(p) && DashFree(a) {
      forall e', p', a' | Join(e', p', a') == Join(e, p, a) ensures e' == e && p' == p && a' == a {
        DashFreeUnique(e, p, a, e', p', a');
      }
    } else {
      var e', p', a' := RereadAny(e, p, a);
    }
  }

  // ----- what the last hash pins down, for the code's own hash -----

  /** Every digest has `n` characters, none of them a dash; for md5 in hexadecimal `n` is 32. */
  ghost predicate FixedLength(md5: Digest, n: nat) {
    forall s :: |md5(s)| == n && DashFree(md5(s))
  }

  /** Two records at the same place hash different texts to one digest: a collision of the digest, in these chains. */
  ghost predicate TextsCollide(md5: Digest, c: seq<Record>, d: seq<Record>)
    requires |c| == |d|
  {
    exists i :: 0 <= i < |c| && Text(c[i]) != Text(d[i]) && md5(Text(c[i])) == md5(Text(d[i]))
  }

  /** All records but the first are the same, and the first ones have the same text and hash. */
  ghost predicate SameFromSecond(c: seq<Record>, d: seq<Record>)
    requires |c| == |d|
  {
    && (forall i :: 1 <= i < |c| ==> c[i] == d[i])
    && (c != [] ==> Text(c[0]) == Text(d[0]) && c[0].currentHash == d[0].currentHash)
  }

  lemma HashIsText(md5: Digest, r: Record)
    ensures ComputeHash(md5)(r.eventId, r.previousHash, r.actor) == md5(Text(r))
  {
  }

  lemma {:induction false} TextsDetermine(md5: Digest, n: nat, c: seq<Record>, d: seq<Record>)
    requires FixedLength(md5, n)
    requires var h := ComputeHash(md5); Verifies(h, c) && Verifies(h, d) && |c| == |d| && LastHash(c) == LastHash(d)
    requires forall i :: 1 <= i < |c| ==> ReadOnce(n, c[i].eventId, c[i].actor)
    ensures TextsCollide(md5, c, d) || SameFromSecond(c, d)
  {
    hide ReadOnce, Join, DashFree;
    var h := ComputeHash(md5);
    if c != [] {
      var k := |c| - 1;
      assert Intact(h, c[k]) && Intact(h, d[k]);
      if Text(c[k]) == Text(d[k]) && k > 0 {
        ChainLink(h, c);
        ChainLink(h, d);
        HashIsText(md5, c[k - 1]);
        HashIsText(md5, d[k - 1]);
        OneReading(n, c[k].eventId, c[k].previousHash, c[k].actor, d[k].eventId, d[k].previousHash, d[k].actor);
        TextsDetermine(md5, n, c[..k], d[..k]);
        if TextsCollide(md5, c[..k], d[..k]) {
          var i :| 0 <= i < k && Text(c[..k][i]) != Text(d[..k][i]) && md5(Text(c[..k][i])) == md5(Text(d[..k][i]));
          assert Text(c[i]) != Text(d[i]);
        } else {
          assert forall i :: 0 <= i < k ==> c[i] == c[..k][i] && d[i] == d[..k][i];
        }
      }
    }
  }

  /** Whatever chain verifies with the length and the last hash of this ring is this ring from its second record on,
      unless the two exhibit a collision of the digest. */
  ghost predicate PinnedFromSecond(md5: Digest, maxRecords: nat, events: seq<Event>) {
    var h := ComputeHash(md5);
    var c := Run(h, maxRecords, events);
    forall d :: Verifies(h, d) && |d| == |c| && LastHash(d) == LastHash(c) ==>
      TextsCollide(md5, c, d) || SameFromSecond(c, d)
  }

  ghost predicate Pinned(md5: Digest, maxRecords: nat, events: seq<Event>) {
    var h := ComputeHash(md5);
    var c := Run(h, maxRecords, events);
    forall d :: Verifies(h, d) && |d| == |c| && LastHash(d) == LastHash(c) ==> TextsCollide(md5, c, d) || c == d
  }

  /** The index of the oldest event the ring still holds. */
  function Oldest(maxRecords: nat, events: seq<Event>): nat {
    if |events| < maxRecords then 0 else |events| - maxRecords
  }

  /** No segment of a retained event id or actor, the oldest record aside, can pass for a digest. */
  ghost predicate LaterReadOnce(n: nat, maxRecords: nat, events: seq<Event>) {
    forall j :: Oldest(maxRecords, events) < j < |events| ==> ReadOnce(n, events[j].0, events[j].1)
  }

  ghost predicate OldestDashFree(maxRecords: nat, events: seq<Event>) {
    var j := Oldest(maxRecords, events);
    j < |events| ==> DashFree(events[j].0) && DashFree(events[j].1)
  }

  /** Ids no longer than a digest qualify, dashes or not. */
  lemma ShortIdsReadOnce(n: nat, maxRecords: nat, events: seq<Event>)
    requires forall j :: 0 <= j < |events| ==> |events[j].0| <= n && |events[j].1| <= n
    ensures LaterReadOnce(n, maxRecords, events)
  {
    hide SegmentAt;
    forall j | Oldest(maxRecords, events) < j < |events| ensures ReadOnce(n, events[j].0, events[j].1) {
      NoRoom(n, events[j].0, events[j].1);
    }
  }

  lemma NoRoom(n: nat, eventId: string, actor: string)
    requires |eventId| <= n && |actor| <= n
    ensures ReadOnce(n, eventId, actor)
  {
  }

  /** What the records of a verifying chain hold, in terms of the digest. */
  lemma ChainRecords(md5: Digest, c: seq<Record>)
    requires Verifies(ComputeHash(md5), c)
    ensures forall i :: 0 <= i < |c| ==> c[i].currentHash == md5(Text(c[i]))
    ensures forall i :: 1 <= i < |c| ==> c[i].previousHash == md5(Text(c[i - 1]))
  {
    hide Join;
    forall i | 0 <= i < |c| ensures c[i].currentHash == md5(Text(c[i])) {
      assert Intact(ComputeHash(md5), c[i]);
    }
    forall i | 1 <= i < |c| ensures c[i].previousHash == md5(Text(c[i - 1])) {
      assert c[i - 1 + 1].previousHash == c[i - 1].currentHash;
    }
  }

  /** The ring carries the retained events; its first record names a digest or "genesis" as its predecessor. */
  lemma RingRecords(md5: Digest, maxRecords: nat, events: seq<Event>)
    requires maxRecords > 0
    ensures var h := ComputeHash(md5); var c := Run(h, maxRecords, events); var j := Oldest(maxRecords, events);
            && Verifies(h, c) && |c| == |events| - j
            && (forall i :: 0 <= i < |c| ==> c[i].eventId == events[j + i].0 && c[i].actor == events[j + i].1)
            && (c != [] ==> c[0].previousHash == "genesis" || exists s :: c[0].previousHash == md5(s))
  {
    hide Run, History, Text, Verifies, ComputeHash;
    var h := ComputeHash(md5);
    var c, all, j := Run(h, maxRecords, events), History(h, events), Oldest(maxRecords, events);
    AppendsVerify(h, maxRecords, events);
    RunIsSuffix(h, maxRecords, events);
    HistoryVerifies(h, events);
    assert |c| == |events| - j && c == all[j..];
    hide Oldest;
    if c != [] {
      ChainRecords(md5, all);
      assert c[0] == all[j];
      if j > 0 {
        assert all[j].previousHash == md5(Text(all[j - 1]));
      }
    }
  }

  /** Tamper evidence as the code provides it. Under a digest of fixed length, a ring whose later records cannot be
      read twice is determined from its second record on by its length and last hash, up to a collision of the digest
      that the two chains exhibit; and from its first record on if no field of that one holds a dash. */
  lemma TamperEvident(md5: Digest, n: nat, maxRecords: nat, events: seq<Event>)
    requires maxRecords > 0 && FixedLength(md5, n) && LaterReadOnce(n, maxRecords, events)
    ensures PinnedFromSecond(md5, maxRecords, events)
    ensures OldestDashFree(maxRecords, events) ==> Pinned(md5, maxRecords, events)
  {
    var h := ComputeHash(md5);
    var c := Run(h, maxRecords, events);
    RingRecords(md5, maxRecords, events);
    hide ReadOnce, Run, Join, ComputeHash, Verifies;
    forall d: seq<Record> | Verifies(h, d) && |d| == |c| && LastHash(d) == LastHash(c)
      ensures TextsCollide(md5, c, d) || SameFromSecond(c, d)
      ensures OldestDashFree(maxRecords, events) ==> TextsCollide(md5, c, d) || c == d
    {
      TextsDetermine(md5, n, c, d);
      if OldestDashFree(maxRecords, events) && SameFromSecond(c, d) && c != [] {
        assert DashFree("genesis");
        DashFreeUnique(c[0].eventId, c[0].previousHash, c[0].actor, d[0].eventId, d[0].previousHash, d[0].actor);
        assert forall i :: 0 <= i < |c| ==> c[i] == d[i];
      }
    }
  }

  // ----- both conditions are exact -----

  /** A ring and the same ring with one record re-read: both verify, and no text differs. */
  lemma RereadRing(md5: Digest, c: seq<Record>, i: nat, e: string, p: string, a: string)
    requires var h := ComputeHash(md5); Verifies(h, c) && i < |c|
    requires Join(e, p, a) == Text(c[i]) && e != c[i].eventId && (i > 0 ==> p == c[i].previousHash)
    ensures var d := c[i := Record(e, p, c[i].currentHash, a)];
            && Verifies(ComputeHash(md5), d) && LastHash(d) == LastHash(c)
            && !TextsCollide(md5, c, d) && d != c && (i > 0 ==> !SameFromSecond(c, d))
  {
    hide Join;
    var h := ComputeHash(md5);
    var d := c[i := Record(e, p, c[i].currentHash, a)];
    forall k | 0 <= k < |d| ensures Intact(h, d[k]) {
      assert Intact(h, c[k]);
    }
    forall k | 0 <= k < |d| - 1 ensures d[k + 1].previousHash == d[k].currentHash {
      assert c[k + 1].previousHash == c[k].currentHash;
    }
    assert d[i] != c[i];
  }

  /** The first record of a ring that holds a dash can be re-read under any digest: nothing checks what it names as
      its previous hash. */
  lemma FirstRecordRereadable(md5: Digest, maxRecords: nat, events: seq<Event>)
    requires maxRecords > 0 && !OldestDashFree(maxRecords, events)
    ensures !Pinned(md5, maxRecords, events)
  {
    var h := ComputeHash(md5);
    var c := Run(h, maxRecords, events);
    RingRecords(md5, maxRecords, events);
    hide Run;
    var e, p, a := RereadAny(c[0].eventId, c[0].previousHash, c[0].actor);
    hide Join;
    RereadRing(md5, c, 0, e, p, a);
    var d := c[0 := Record(e, p, c[0].currentHash, a)];
    assert Verifies(h, d);
  }

  /** A later record with a segment as long as a digest can be re-read under a digest that produces this segment. */
  lemma LaterRecordRereadable(n: nat, maxRecords: nat, events: seq<Event>) returns (md5: Digest)
    requires maxRecords > 0 && !LaterReadOnce(n, maxRecords, events)
    ensures FixedLength(md5, n) && !PinnedFromSecond(md5, maxRecords, events)
  {
    hide ReadOnce;
    var first := Oldest(maxRecords, events);
    var j :| first < j < |events| && !ReadOnce(n, events[j].0, events[j].1);
    var segment := SegmentOf(n, events[j].0, events[j].1);
    md5 := _ => segment;
    RereadLater(md5, n, maxRecords, events, j);
  }

  lemma RereadLater(md5: Digest, n: nat, maxRecords: nat, events: seq<Event>, j: nat)
    requires maxRecords > 0 && Oldest(maxRecords, events) < j < |events|
    requires !ReadOnce(n, events[j].0, events[j].1)
    requires forall s :: md5(s) == SegmentOf(n, events[j].0, events[j].1)
    ensures !PinnedFromSecond(md5, maxRecords, events)
  {
    hide ReadOnce, SegmentOf, Run, ComputeHash, Join;
    var h := ComputeHash(md5);
    var c := Run(h, maxRecords, events);
    RingRecords(md5, maxRecords, events);
    ChainRecords(md5, c);
    var i := j - Oldest(maxRecords, events);
    var r := c[i];
    assert r.previousHash == md5(Text(c[i - 1]));
    var e, a := RereadAs(n, r.eventId, r.actor, r.previousHash);
    hide Verifies, Oldest;
    RereadRing(md5, c, i, e, r.previousHash, a);
  }

  /** Both conditions are exact. A caller can check them on the ids before appending. */
  lemma TamperEvidentIff(n: nat, maxRecords: nat, events: seq<Event>)
    requires maxRecords > 0
    ensures (forall md5 :: FixedLength(md5, n) ==> PinnedFromSecond(md5, maxRecords, events))
            <==> LaterReadOnce(n, maxRecords, events)
    ensures (forall md5 :: FixedLength(md5, n) ==> Pinned(md5, maxRecords, events))
            <==> LaterReadOnce(n, maxRecords, events) && OldestDashFree(maxRecords, events)
  {
    hide PinnedFromSecond, Pinned, FixedLength, LaterReadOnce, OldestDashFree;
    if LaterReadOnce(n, maxRecords, events) {
      forall md5 | FixedLength(md5, n)
        ensures PinnedFromSecond(md5, maxRecords, events)
        ensures OldestDashFree(maxRecords, events) ==> Pinned(md5, maxRecords, events)
      {
        TamperEvident(md5, n, maxRecords, events);
      }
      if !OldestDashFree(maxRecords, events) {
        var md5 := SomeDigest(n);
        FirstRecordRereadable(md5, maxRecords, events);
      }
    } else {
      var md5 := LaterRecordRereadable(n, maxRecords, events);
      PinnedIsMore(md5, maxRecords, events);
    }
  }

  lemma SomeDigest(n: nat) returns (md5: Digest)
    ensures FixedLength(md5, n)
  {
    md5 := _ => seq(n, _ => '0');
  }

  lemma PinnedIsMore(md5: Digest, maxRecords: nat, events: seq<Event>)
    ensures Pinned(md5, maxRecords, events) ==> PinnedFromSecond(md5, maxRecords, events)
  {
    hide Run, ComputeHash, Verifies, Join;
  }
}
