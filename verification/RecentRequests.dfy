/**
 The cache of recently handled requests, which recognises retransmissions.

 A request's key joins six of its fields with '|'. The cache is a list of keys, the
 most recently inserted first; a key found again is kept longer where it stands.
 */
module RecentRequests {
  import opened Lists
  import opened Tables
  import opened Decimal

  const TTL_MS := 5000
  const MAX_ENTRIES := 512
  const KEY_CAPACITY := 768

  datatype Request = Request(
    transport: int, association: nat, callId: string, cseq: int, method_: string, branch: string)

  datatype Entry = Entry(key: string, expires: nat)

  function KeyOf(): Entry -> string { (e: Entry) => e.key }

  // ---- The key -------------------------------------------------------------------------

  /** What printf writes of a counted string: it stops at a NUL. */
  function Printed(s: string): string {
    if s == [] || s[0] == '\0' then [] else [s[0]] + Printed(s[1..])
  }

  function Fields(r: Request): seq<string> {
    [Signed(r.transport), Digits(r.association), Printed(r.callId), Signed(r.cseq), Printed(r.method_), Printed(r.branch)]
  }

  function Join(fields: seq<string>): string
    requires fields != []
  {
    if |fields| == 1 then fields[0] else fields[0] + (['|'] + Join(fields[1..]))
  }

  function Joined(r: Request): string { Join(Fields(r)) }

  /** A request has a key unless a field is missing or the text does not fit its buffer. */
  function Key(r: Request): Option<string> {
    if r.callId == "" || r.method_ == "" || r.branch == "" || |Joined(r)| >= KEY_CAPACITY then None
    else Some(Joined(r))
  }

  /** Requests without a Call-ID, method or branch have no key, nor have those whose text is over 767 characters. */
  lemma KeyExactly(r: Request)
    ensures Key(r).Some? <==> |r.callId| > 0 && |r.method_| > 0 && |r.branch| > 0 && |Joined(r)| <= 767
    ensures Key(r).Some? ==> Key(r).value == Joined(r)
  {
  }

  /** Call-ID and method as the grammar of section 25.1 of RFC 3261 allows them, and no NUL anywhere. */
  predicate Plain(r: Request) {
    && '|' !in r.callId && '|' !in r.method_
    && '\0' !in r.callId && '\0' !in r.method_ && '\0' !in r.branch
  }

  /** What is printed is the text in front of its first NUL. */
  lemma {:induction false} PrintedExactly(before: string, after: string)
    requires '\0' !in before
    ensures Printed(before + (['\0'] + after)) == before
  {
    var s := before + (['\0'] + after);
    if before == [] {
      assert s[0] == '\0';
    } else {
      assert s[1..] == before[1..] + (['\0'] + after);
      PrintedExactly(before[1..], after);
    }
  }

  lemma {:induction false} PrintedPlain(s: string)
    requires '\0' !in s
    ensures Printed(s) == s
  {
    if s != [] {
      PrintedPlain(s[1..]);
    }
  }

  /** Text up to the first bar is determined by the whole. */
  lemma FirstField(a: string, x: string, b: string, y: string)
    requires '|' !in a && '|' !in b && a + (['|'] + x) == b + (['|'] + y)
    ensures a == b && x == y
  {
    var whole := a + (['|'] + x);
    assert whole[|a|] == '|' && whole[|b|] == '|';
    assert forall i :: 0 <= i < |a| ==> whole[i] == a[i];
    assert forall i :: 0 <= i < |b| ==> whole[i] == b[i];
    assert |a| == |b|;
    assert a == whole[..|a|] && b == whole[..|b|];
    assert x == whole[|a| + 1..] && y == whole[|b| + 1..];
  }

  /** Fields without bars, except in the last one, are determined by the joined text. */
  lemma {:induction false} JoinInjective(a: seq<string>, b: seq<string>)
    requires |a| == |b| > 0 && Join(a) == Join(b)
    requires forall i :: 0 <= i < |a| - 1 ==> '|' !in a[i] && '|' !in b[i]
    ensures a == b
  {
    if |a| > 1 {
      FirstField(a[0], Join(a[1..]), b[0], Join(b[1..]));
      JoinInjective(a[1..], b[1..]);
      assert a == [a[0]] + a[1..] && b == [b[0]] + b[1..];
    }
  }

  /** Requests with one key agree in all six fields. */
  lemma KeyInjective(r: Request, q: Request)
    requires Plain(r) && Plain(q) && Joined(r) == Joined(q)
    ensures r == q
  {
    PrintedPlain(r.callId); PrintedPlain(r.method_); PrintedPlain(r.branch);
    PrintedPlain(q.callId); PrintedPlain(q.method_); PrintedPlain(q.branch);
    var a, b := Fields(r), Fields(q);
    JoinInjective(a, b);
    assert forall i :: 0 <= i < 6 ==> a[i] == b[i];
    SignedInjective(r.transport, q.transport);
    SignedInjective(r.cseq, q.cseq);
    ValueOfDigits(r.association);
    ValueOfDigits(q.association);
  }

  /** With bars allowed in a Call-ID and a method, different requests share a key. */
  lemma BarsCollide(transport: int, association: nat, id: string, x: int, y: int, name: string, branch: string)
    requires '\0' !in id && '\0' !in name
    ensures var r := Request(transport, association, id + (['|'] + Signed(x)), y, name, branch);
            var q := Request(transport, association, id, x, Signed(y) + (['|'] + name), branch);
            && r != q && Joined(r) == Joined(q)
            && (id != "" && name != "" && branch != "" && |Joined(r)| < KEY_CAPACITY ==> Key(r) == Key(q) && Key(r).Some?)
  {
    var longId, longName := id + (['|'] + Signed(x)), Signed(y) + (['|'] + name);
    PrintedPlain(longId); PrintedPlain(longName); PrintedPlain(id); PrintedPlain(name);
    assert |longId| > |id|;
    var t, n, b := Signed(transport), Digits(association), Printed(branch);
    JoinSix(t, n, longId, Signed(y), name, b);
    JoinSix(t, n, id, Signed(x), longName, b);
    BarShift(id, Signed(x), Signed(y), name, ['|'] + b);
  }

  /** Two requests that differ and have one and the same key. */
  lemma TwoRequestsOneKey()
    ensures exists r, q :: r != q && Key(r).Some? && Key(r) == Key(q)
  {
    BarsCollide(0, 0, "x", 1, 2, "INFO", "b");
    var r := Request(0, 0, "x" + (['|'] + Signed(1)), 2, "INFO", "b");
    var q := Request(0, 0, "x", 1, Signed(2) + (['|'] + "INFO"), "b");
    JoinSix(Signed(0), Digits(0), Printed(r.callId), Signed(2), Printed("INFO"), Printed("b"));
    PrintedPlain(r.callId); PrintedPlain("INFO"); PrintedPlain("b");
    assert |Joined(r)| < KEY_CAPACITY;
    assert r != q && Key(r).Some? && Key(r) == Key(q);
  }

  lemma JoinSix(a: string, b: string, c: string, d: string, e: string, f: string)
    ensures Join([a, b, c, d, e, f])
         == a + (['|'] + (b + (['|'] + (c + (['|'] + (d + (['|'] + (e + (['|'] + f)))))))))
  {
    assert [a, b, c, d, e, f][1..] == [b, c, d, e, f];
    assert [b, c, d, e, f][1..] == [c, d, e, f];
    assert [c, d, e, f][1..] == [d, e, f];
    assert [d, e, f][1..] == [e, f];
    assert [e, f][1..] == [f];
    assert Join([e, f]) == e + (['|'] + f);
    assert Join([d, e, f]) == d + (['|'] + Join([e, f]));
    assert Join([c, d, e, f]) == c + (['|'] + Join([d, e, f]));
    assert Join([b, c, d, e, f]) == b + (['|'] + Join([c, d, e, f]));
  }

  lemma BarShift(a: string, b: string, c: string, d: string, tail: string)
    ensures (a + (['|'] + b)) + (['|'] + (c + (['|'] + (d + tail))))
         == a + (['|'] + (b + (['|'] + ((c + (['|'] + d)) + tail))))
  {
    ConcatAssociative(a, ['|'] + b, ['|'] + (c + (['|'] + (d + tail))));
    ConcatAssociative(['|'], b, ['|'] + (c + (['|'] + (d + tail))));
    ConcatAssociative(c, ['|'] + d, tail);
    ConcatAssociative(['|'], d, tail);
  }

  // ---- The list --------------------------------------------------------------------------

  function Unexpired(now: nat): Entry -> bool { (e: Entry) => e.expires > now }

  /** The oldest insertions go when there are too many. */
  function Trimmed(list: seq<Entry>): seq<Entry> {
    if |list| <= MAX_ENTRIES then list else list[..MAX_ENTRIES]
  }

  function Cleaned(list: seq<Entry>, now: nat): seq<Entry> { Filter(list, Unexpired(now)) }

  /** What a lookup leaves behind, given the cleaned list. */
  function Refreshed(list: seq<Entry>, key: string, now: nat): seq<Entry> {
    match Find(list, KeyOf(), key)
    case Some(i) => list[i := list[i].(expires := now + TTL_MS)]
    case None => Trimmed([Entry(key, now + TTL_MS)] + list)
  }

  predicate Seen(list: seq<Entry>, key: string, now: nat) {
    Find(Cleaned(list, now), KeyOf(), key).Some?
  }

  function Touch(list: seq<Entry>, key: string, now: nat): seq<Entry> {
    Refreshed(Cleaned(list, now), key, now)
  }

  // ---- Runs -------------------------------------------------------------------------------

  datatype State = State(list: seq<Entry>, clock: nat)

  /** The key of an arriving request, if it has one, and how long after the previous one it arrives. */
  datatype Arrival = Arrival(key: Option<string>, wait: nat)

  function ApplyKey(s: State, k: Option<string>, now: nat): State {
    State(if k.Some? then Touch(s.list, k.value, now) else s.list, now)
  }

  /**
   What the past says about a key: when each key last arrived, which other keys were
   inserted (not taken for duplicates) since the key's own insertion, and whether 512 of
   those were ever unexpired at one time.
   */
  datatype Past = Past(lasts: map<string, nat>, later: set<string>, crowded: bool)

  /** The keys of a set that are unexpired. */
  function Ahead(lasts: map<string, nat>, now: nat, later: set<string>): set<string> {
    set j | j in later && j in lasts && now < lasts[j] + TTL_MS
  }

  function NextPast(p: Past, seen: bool, k: string, now: nat, key: string): Past {
    var lasts := p.lasts[k := now];
    if seen then p.(lasts := lasts)
    else if k == key then Past(lasts, {}, false)
    else
      var later := p.later + {k};
      Past(lasts, later, p.crowded || |Ahead(lasts, now, later)| >= 512)
  }

  function PastStep(p: Past, s: State, k: Option<string>, now: nat, key: string): Past {
    if k.None? then p else NextPast(p, Seen(s.list, k.value, now), k.value, now, key)
  }

  // ---- What every arrival keeps -------------------------------------------------------------

  predicate Fits(list: seq<Entry>) {
    Unique(list, KeyOf()) && |list| <= MAX_ENTRIES
  }

  lemma TouchFits(list: seq<Entry>, key: string, now: nat)
    requires Fits(list)
    ensures Fits(Touch(list, key, now))
  {
    UniqueFilter(list, KeyOf(), Unexpired(now));
  }

  /** Each entry carries the time its key last arrived. */
  predicate Dated(list: seq<Entry>, lasts: map<string, nat>) {
    forall i :: 0 <= i < |list| ==> list[i].key in lasts && list[i].expires == lasts[list[i].key] + TTL_MS
  }

  predicate HasKey(list: seq<Entry>, key: string) {
    exists x :: 0 <= x < |list| && list[x].key == key
  }

  /** In front of a key are keys inserted later, and among them all that are unexpired. */
  predicate Front(front: seq<Entry>, lasts: map<string, nat>, clock: nat, later: set<string>) {
    && (forall x :: 0 <= x < |front| ==> front[x].key in later)
    && (forall j :: j in Ahead(lasts, clock, later) ==> HasKey(front, j))
  }

  /** A key is in the list unless it was crowded out or has expired. */
  predicate Placed(list: seq<Entry>, clock: nat, p: Past, key: string) {
    match Find(list, KeyOf(), key)
    case Some(i) => !p.crowded && Front(list[..i], p.lasts, clock, p.later)
    case None => p.crowded || key !in p.lasts || p.lasts[key] + TTL_MS <= clock
  }

  lemma FoundAt(list: seq<Entry>, k: nat)
    requires Unique(list, KeyOf()) && k < |list|
    ensures Find(list, KeyOf(), list[k].key) == Some(k)
  {
  }

  lemma NotFound(list: seq<Entry>, key: string)
    requires forall x :: 0 <= x < |list| ==> list[x].key != key
    ensures Find(list, KeyOf(), key) == None
  {
  }

  /** Filtering keeps what is in front of a kept record in front of it. */
  lemma FilterSplit(list: seq<Entry>, i: nat, keep: Entry -> bool)
    requires i < |list| && keep(list[i])
    ensures var front, r := Filter(list[..i], keep), Filter(list, keep);
            |front| <= i && |front| < |r| && r[|front|] == list[i] && r[..|front|] == front
  {
    var x, back := list[i], list[i + 1..];
    assert list == list[..i] + ([x] + back);
    KeptConcat(list[..i], [x] + back, keep);
    assert ([x] + back)[1..] == back;
  }

  lemma CleanDated(list: seq<Entry>, lasts: map<string, nat>, now: nat)
    requires Dated(list, lasts) && Fits(list)
    ensures Dated(Cleaned(list, now), lasts) && Fits(Cleaned(list, now))
    ensures forall i :: 0 <= i < |Cleaned(list, now)| ==> Cleaned(list, now)[i].expires > now
  {
    UniqueFilter(list, KeyOf(), Unexpired(now));
    var r := Cleaned(list, now);
    forall i | 0 <= i < |r|
      ensures r[i].key in lasts && r[i].expires == lasts[r[i].key] + TTL_MS && r[i].expires > now
    {
      assert r[i] in r;
    }
  }

  lemma CleanFront(front: seq<Entry>, lasts: map<string, nat>, clock: nat, now: nat, later: set<string>)
    requires Front(front, lasts, clock, later) && clock <= now && Dated(front, lasts)
    ensures Front(Cleaned(front, now), lasts, now, later)
  {
    var r := Cleaned(front, now);
    forall x | 0 <= x < |r|
      ensures r[x].key in later
    {
      assert r[x] in r;
    }
    forall j | j in Ahead(lasts, now, later)
      ensures HasKey(r, j)
    {
      assert j in Ahead(lasts, clock, later);
      var x :| 0 <= x < |front| && front[x].key == j;
      assert front[x] in r;
    }
  }

  lemma CleanPlaced(list: seq<Entry>, clock: nat, now: nat, p: Past, key: string)
    requires Fits(list) && Dated(list, p.lasts) && Placed(list, clock, p, key) && clock <= now
    ensures Placed(Cleaned(list, now), now, p, key)
  {
    var r, found := Cleaned(list, now), Find(list, KeyOf(), key);
    CleanDated(list, p.lasts, now);
    if found.Some? && list[found.value].expires > now {
      var i := found.value;
      FilterSplit(list, i, Unexpired(now));
      FoundAt(r, |Cleaned(list[..i], now)|);
      CleanFront(list[..i], p.lasts, clock, now, p.later);
    } else {
      forall x | 0 <= x < |r|
        ensures r[x].key != key
      {
        assert r[x] in r;
        var y :| 0 <= y < |list| && list[y] == r[x];
        FoundAt(list, y);
      }
      NotFound(r, key);
    }
  }

  /** A key that is found stays where it is, and so do all others. */
  lemma RefreshPlaced(list: seq<Entry>, f: nat, now: nat, p: Past, key: string)
    requires Fits(list) && Dated(list, p.lasts) && Placed(list, now, p, key)
    requires f < |list| && list[f].expires > now
    ensures var k := list[f].key;
            var list', p' := list[f := list[f].(expires := now + TTL_MS)], p.(lasts := p.lasts[k := now]);
            Fits(list') && Dated(list', p'.lasts) && Placed(list', now, p', key)
  {
    var k := list[f].key;
    var list', p' := list[f := list[f].(expires := now + TTL_MS)], p.(lasts := p.lasts[k := now]);
    assert forall x :: 0 <= x < |list| ==> list'[x].key == list[x].key;
    assert Unique(list', KeyOf());
    var found := Find(list, KeyOf(), key);
    if found.Some? {
      var i := found.value;
      FoundAt(list', i);
      forall j | j in Ahead(p'.lasts, now, p'.later)
        ensures HasKey(list'[..i], j)
      {
        assert j in Ahead(p.lasts, now, p.later);
        var x :| 0 <= x < i && list[..i][x].key == j;
        assert list'[..i][x].key == j;
      }
      assert forall x :: 0 <= x < i ==> list'[..i][x].key == list[..i][x].key;
    } else {
      NotFound(list', key);
    }
  }

  function KeysOf(list: seq<Entry>): set<string> { set x | 0 <= x < |list| :: list[x].key }

  lemma {:induction false} KeysCounted(list: seq<Entry>)
    requires Unique(list, KeyOf())
    ensures |KeysOf(list)| == |list|
  {
    if list != [] {
      var front, last := list[..|list| - 1], list[|list| - 1];
      KeysCounted(front);
      assert KeysOf(list) == KeysOf(front) + {last.key};
      assert last.key !in KeysOf(front);
    }
  }

  /** With nothing expired in front of it, a key's place is the number of unexpired keys inserted later. */
  lemma PlaceIsCount(front: seq<Entry>, lasts: map<string, nat>, now: nat, later: set<string>)
    requires Unique(front, KeyOf()) && Front(front, lasts, now, later) && Dated(front, lasts)
    requires forall x :: 0 <= x < |front| ==> front[x].expires > now
    ensures |Ahead(lasts, now, later)| == |front|
  {
    KeysCounted(front);
    assert Ahead(lasts, now, later) == KeysOf(front);
  }

  lemma InsertFront(front: seq<Entry>, lasts: map<string, nat>, now: nat, later: set<string>, k: string)
    requires Front(front, lasts, now, later)
    ensures Front([Entry(k, now + TTL_MS)] + front, lasts[k := now], now, later + {k})
  {
    var longer := [Entry(k, now + TTL_MS)] + front;
    forall j | j in Ahead(lasts[k := now], now, later + {k})
      ensures HasKey(longer, j)
    {
      if j == k {
        assert longer[0].key == k;
      } else {
        assert j in Ahead(lasts, now, later);
        var x :| 0 <= x < |front| && front[x].key == j;
        assert longer[x + 1].key == j;
      }
    }
  }

  lemma InsertDated(list: seq<Entry>, lasts: map<string, nat>, now: nat, k: string)
    requires Fits(list) && Dated(list, lasts) && Find(list, KeyOf(), k) == None
    ensures var list' := Trimmed([Entry(k, now + TTL_MS)] + list);
            Fits(list') && Dated(list', lasts[k := now])
  {
    var longer := [Entry(k, now + TTL_MS)] + list;
    assert forall x :: 0 < x < |longer| ==> longer[x] == list[x - 1];
  }

  lemma InsertSelf(list: seq<Entry>, now: nat, p: Past, k: string)
    requires Fits(list) && Find(list, KeyOf(), k) == None
    ensures Placed(Trimmed([Entry(k, now + TTL_MS)] + list), now, NextPast(p, false, k, now, k), k)
  {
    assert Find(Trimmed([Entry(k, now + TTL_MS)] + list), KeyOf(), k) == Some(0);
  }

  lemma InsertAbsent(list: seq<Entry>, now: nat, p: Past, k: string, key: string)
    requires Placed(list, now, p, key) && key != k && Find(list, KeyOf(), key) == None
    ensures Placed(Trimmed([Entry(k, now + TTL_MS)] + list), now, NextPast(p, false, k, now, key), key)
  {
    var longer := [Entry(k, now + TTL_MS)] + list;
    assert forall x :: 0 < x < |longer| ==> longer[x] == list[x - 1];
    NotFound(Trimmed(longer), key);
  }

  /** The keys in front of a key, with the new one: as many as are unexpired and inserted later. */
  lemma InsertCount(list: seq<Entry>, i: nat, now: nat, p: Past, k: string)
    requires Fits(list) && Dated(list, p.lasts) && Find(list, KeyOf(), k) == None && i < |list|
    requires Front(list[..i], p.lasts, now, p.later) && forall x :: 0 <= x < |list| ==> list[x].expires > now
    ensures var front := [Entry(k, now + TTL_MS)] + list[..i];
            && Front(front, p.lasts[k := now], now, p.later + {k})
            && |Ahead(p.lasts[k := now], now, p.later + {k})| == i + 1
  {
    var front := [Entry(k, now + TTL_MS)] + list[..i];
    assert forall x :: 0 < x < |front| ==> front[x] == list[x - 1];
    InsertFront(list[..i], p.lasts, now, p.later, k);
    assert Dated(front, p.lasts[k := now]);
    PlaceIsCount(front, p.lasts[k := now], now, p.later + {k});
  }

  lemma InsertMoves(list: seq<Entry>, i: nat, k: string, now: nat)
    requires Fits(list) && Find(list, KeyOf(), k) == None && i < |list|
    ensures var list' := Trimmed([Entry(k, now + TTL_MS)] + list);
            if i + 1 < MAX_ENTRIES then
              && Find(list', KeyOf(), list[i].key) == Some(i + 1)
              && list'[..i + 1] == [Entry(k, now + TTL_MS)] + list[..i]
            else Find(list', KeyOf(), list[i].key) == None
  {
    var longer := [Entry(k, now + TTL_MS)] + list;
    var list' := Trimmed(longer);
    assert forall x :: 0 < x < |longer| ==> longer[x] == list[x - 1];
    assert Unique(longer, KeyOf());
    if i + 1 < MAX_ENTRIES {
      FoundAt(list', i + 1);
    } else {
      assert longer[i + 1].key == list[i].key;
      NotFound(list', list[i].key);
    }
  }

  lemma InsertBehind(list: seq<Entry>, i: nat, now: nat, p: Past, k: string, key: string)
    requires Fits(list) && Find(list, KeyOf(), k) == None && key != k && i < |list| && list[i].key == key && !p.crowded
    requires Front([Entry(k, now + TTL_MS)] + list[..i], p.lasts[k := now], now, p.later + {k})
    requires |Ahead(p.lasts[k := now], now, p.later + {k})| == i + 1
    ensures Placed(Trimmed([Entry(k, now + TTL_MS)] + list), now, NextPast(p, false, k, now, key), key)
  {
    InsertMoves(list, i, k, now);
  }

  /** An insertion moves every key one place back; the one that falls off the end is exactly the crowded one. */
  lemma InsertPlaced(list: seq<Entry>, now: nat, p: Past, k: string, key: string)
    requires Fits(list) && Dated(list, p.lasts) && Placed(list, now, p, key) && Find(list, KeyOf(), k) == None
    requires forall x :: 0 <= x < |list| ==> list[x].expires > now
    ensures Placed(Trimmed([Entry(k, now + TTL_MS)] + list), now, NextPast(p, false, k, now, key), key)
  {
    var found := Find(list, KeyOf(), key);
    if key == k {
      InsertSelf(list, now, p, k);
    } else if found.None? {
      InsertAbsent(list, now, p, k, key);
    } else {
      InsertCount(list, found.value, now, p, k);
      InsertBehind(list, found.value, now, p, k, key);
    }
  }

  predicate Keeps(s: State, p: Past, key: string) {
    Fits(s.list) && Dated(s.list, p.lasts) && Placed(s.list, s.clock, p, key)
  }

  lemma TouchKeeps(s: State, p: Past, k: string, now: nat, key: string)
    requires Keeps(s, p, key) && s.clock <= now
    ensures Keeps(State(Touch(s.list, k, now), now), NextPast(p, Seen(s.list, k, now), k, now, key), key)
  {
    var clean := Cleaned(s.list, now);
    CleanDated(s.list, p.lasts, now);
    CleanPlaced(s.list, s.clock, now, p, key);
    var f := Find(clean, KeyOf(), k);
    if f.Some? {
      RefreshPlaced(clean, f.value, now, p, key);
    } else {
      InsertDated(clean, p.lasts, now, k);
      InsertPlaced(clean, now, p, k, key);
    }
  }

  lemma WaitKeeps(s: State, p: Past, now: nat, key: string)
    requires Keeps(s, p, key) && s.clock <= now
    ensures Keeps(State(s.list, now), p, key)
  {
    assert forall j :: j in Ahead(p.lasts, now, p.later) ==> j in Ahead(p.lasts, s.clock, p.later);
  }

  lemma StepKeeps(s: State, s': State, p: Past, p': Past, k: Option<string>, now: nat, key: string)
    requires Keeps(s, p, key) && s.clock <= now
    requires s' == ApplyKey(s, k, now) && p' == PastStep(p, s, k, now, key)
    ensures Keeps(s', p', key)
  {
    if k.Some? {
      TouchKeeps(s, p, k.value, now, key);
    } else {
      WaitKeeps(s, p, now, key);
    }
  }

  predicate CrowdCounted(p: Past) { p.crowded ==> |p.later| >= MAX_ENTRIES }

  lemma SubsetSize<T>(a: set<T>, b: set<T>)
    requires a <= b
    ensures |a| <= |b|
  {
    assert b == a + (b - a);
  }

  /** A key is crowded out only after 512 keys were inserted later. */
  lemma StepCrowd(p: Past, s: State, k: Option<string>, now: nat, key: string)
    requires CrowdCounted(p)
    ensures CrowdCounted(PastStep(p, s, k, now, key))
  {
    var p' := PastStep(p, s, k, now, key);
    SubsetSize(Ahead(p'.lasts, now, p'.later), p'.later);
    if k.Some? {
      SubsetSize(p.later, p.later + {k.value});
    }
  }

  lemma StepGood(s0: State, p0: Past, s: State, p: Past, k: Option<string>, now: nat, key: string)
    requires Keeps(s0, p0, key) && CrowdCounted(p0) && s0.clock <= now
    requires s == ApplyKey(s0, k, now) && p == PastStep(p0, s0, k, now, key)
    ensures Keeps(s, p, key) && CrowdCounted(p)
  {
    StepKeeps(s0, s, p0, p, k, now, key);
    StepCrowd(p0, s0, k, now, key);
  }

  /** The cache after the arrivals, which is the same for all keys, and what they say about a key. */
  datatype Track = Track(cache: State, past: Past)

  function Run(arrivals: seq<Arrival>, key: string): (r: Track)
    ensures Keeps(r.cache, r.past, key) && CrowdCounted(r.past)
  {
    if arrivals == [] then Track(State([], 0), Past(map[], {}, false))
    else
      var a := arrivals[|arrivals| - 1];
      var t := Run(arrivals[..|arrivals| - 1], key);
      var now := t.cache.clock + a.wait;
      var s, p := ApplyKey(t.cache, a.key, now), PastStep(t.past, t.cache, a.key, now, key);
      StepGood(t.cache, t.past, s, p, a.key, now, key);
      Track(s, p)
  }

  /** After any arrivals the cache has no repeated key and at most 512 entries. */
  lemma CacheIsBounded(arrivals: seq<Arrival>, key: string, t: Track)
    requires t == Run(arrivals, key)
    ensures Unique(t.cache.list, KeyOf()) && |t.cache.list| <= 512
  {
    assert Keeps(t.cache, t.past, key);
  }

  /** Whether a request with a key, arriving a while later, is taken for a retransmission. */
  predicate Duplicate(t: Track, key: string, wait: nat) {
    Seen(t.cache.list, key, t.cache.clock + wait)
  }

  /** The key arrived less than five seconds before. */
  predicate Recent(t: Track, key: string, wait: nat) {
    key in t.past.lasts && t.cache.clock + wait < t.past.lasts[key] + 5000
  }

  lemma SeenExactly(t: Track, key: string, wait: nat)
    requires Keeps(t.cache, t.past, key)
    ensures Duplicate(t, key, wait) <==> Recent(t, key, wait) && !t.past.crowded
  {
    CleanDated(t.cache.list, t.past.lasts, t.cache.clock + wait);
    CleanPlaced(t.cache.list, t.cache.clock, t.cache.clock + wait, t.past, key);
  }

  /**
   A request is taken for a retransmission exactly if its key arrived less than five
   seconds ago and was not crowded out: since its own insertion there were never 512
   keys inserted later and unexpired at one time.
   */
  lemma DuplicateExactly(arrivals: seq<Arrival>, key: string, wait: nat, t: Track)
    requires t == Run(arrivals, key)
    ensures Duplicate(t, key, wait) <==> Recent(t, key, wait) && !t.past.crowded
  {
    SeenExactly(t, key, wait);
  }

  /** In particular, a recent key is always recognised if fewer than 512 keys were inserted since its own insertion. */
  lemma FewInsertionsKeepRecent(arrivals: seq<Arrival>, key: string, wait: nat, t: Track)
    requires t == Run(arrivals, key) && Recent(t, key, wait) && |t.past.later| < 512
    ensures Duplicate(t, key, wait)
  {
    SeenExactly(t, key, wait);
  }

  lemma {:induction false} LastArrived(arrivals: seq<Arrival>, key: string, k: string) returns (i: nat)
    requires k in Run(arrivals, key).past.lasts
    ensures i < |arrivals| && arrivals[i].key == Some(k)
  {
    var before, a := arrivals[..|arrivals| - 1], arrivals[|arrivals| - 1];
    if a.key == Some(k) {
      i := |arrivals| - 1;
    } else {
      i := LastArrived(before, key, k);
    }
  }

  /** The arrivals of given requests. */
  predicate ArrivalsOf(arrivals: seq<Arrival>, requests: seq<Request>) {
    |arrivals| == |requests| && forall i :: 0 <= i < |arrivals| ==> arrivals[i].key == Key(requests[i])
  }

  /** A plain request taken for a retransmission of plain requests is one: all six fields arrived before. */
  lemma DuplicateArrivedBefore(arrivals: seq<Arrival>, requests: seq<Request>, r: Request, wait: nat)
    requires ArrivalsOf(arrivals, requests) && Key(r).Some? && Duplicate(Run(arrivals, Key(r).value), Key(r).value, wait)
    requires Plain(r) && forall i :: 0 <= i < |requests| ==> Plain(requests[i])
    ensures r in requests
  {
    DuplicateExactly(arrivals, Key(r).value, wait, Run(arrivals, Key(r).value));
    var i := LastArrived(arrivals, Key(r).value, Key(r).value);
    KeyInjective(requests[i], r);
  }

  // ---- The list as the shim keeps it ------------------------------------------------------------

  class RecentList {
    var requests: seq<Entry>
    var count: nat

    predicate Counted()
      reads this
    {
      count == |requests|
    }

    /** No key twice, at most 512 of them, and the count is right. */
    predicate Valid()
      reads this
    {
      Counted() && Fits(requests)
    }

    constructor ()
      ensures Valid() && requests == []
    {
      requests, count := [], 0;
    }

    method CleanupRecentRequests(now: nat)
      requires Counted()
      modifies this
      ensures Counted() && requests == Cleaned(old(requests), now)
    {
      ghost var all, keep := requests, Unexpired(now);
      RemoveLoopIsFilter(all, keep);
      var i := 0;
      while i < |requests|
        invariant 0 <= i <= |requests| && Counted()
        invariant RemoveLoop(requests, i, keep) == RemoveLoop(all, 0, keep)
        decreases |requests| - i
      {
        if requests[i].expires > now {
          i := i + 1;
        } else {
          requests := RemoveAt(requests, i);
          count := count - 1;
        }
      }
    }

    /** Walks to the tail and unlinks it, as long as there are too many. */
    method TrimRecentRequests()
      requires Counted()
      modifies this
      ensures Counted() && requests == Trimmed(old(requests))
    {
      while count > MAX_ENTRIES && requests != []
        invariant Counted() && count <= |old(requests)|
        invariant requests == old(requests)[..count]
        invariant MAX_ENTRIES <= count || count == |old(requests)|
      {
        var tail := 0;
        while tail + 1 < |requests|
          invariant tail < |requests|
        {
          tail := tail + 1;
        }
        requests := requests[..tail];
        count := count - 1;
      }
    }

    method RecentRequestSeen(r: Request, now: nat) returns (seen: bool)
      requires Valid()
      modifies this
      ensures Valid()
      ensures requests == if Key(r).Some? then Touch(old(requests), Key(r).value, now) else old(requests)
      ensures seen == (Key(r).Some? && Seen(old(requests), Key(r).value, now))
    {
      var key := Key(r);
      if key.None? {
        return false;
      }
      TouchFits(requests, key.value, now);
      CleanupRecentRequests(now);
      var i := 0;
      while i < |requests|
        invariant 0 <= i <= |requests| && Counted()
        invariant requests == Cleaned(old(requests), now)
        invariant Find(requests, KeyOf(), key.value) == Find(requests, KeyOf(), key.value, i)
      {
        if requests[i].key == key.value {
          requests := requests[i := requests[i].(expires := now + TTL_MS)];
          return true;
        }
        i := i + 1;
      }
      requests := [Entry(key.value, now + TTL_MS)] + requests;
      count := count + 1;
      TrimRecentRequests();
      return false;
    }
  }
}
