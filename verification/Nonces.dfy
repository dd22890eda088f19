/**
 Digest nonces issued to devices, and the record kept of how each was used.

 A nonce may be used with increasing nonce counts, or once without a quality of
 protection, by each pair of user name and client nonce (section 3.4 of RFC 7616).
 Nonces expire and are unlinked while the list is walked.
 */
module Nonces {
  import opened Fields
  import opened Lists

  const NONCE_TTL_MS: nat := 300000
  const MAX_USAGES: nat := 64
  const FIELD_CAPACITY: nat := 128

  datatype Usage = Usage(username: string, cnonce: string, lastNc: nat, usedWithoutQop: bool)

  datatype Nonce = Nonce(value: string, expiresAt: nat, usageCount: nat, usages: seq<Usage>)

  /** The parts of a verified Authorization header that decide a use; `qop` says whether it names one. */
  datatype Credential = Credential(nonce: string, username: string, cnonce: string, qop: bool, nc: string)

  // ---- The nonce count ----------------------------------------------------

  predicate IsHex(c: char) {
    '0' <= c <= '9' || 'a' <= c <= 'f' || 'A' <= c <= 'F'
  }

  function HexDigit(c: char): (d: nat)
    requires IsHex(c)
    ensures d < 16
  {
    if '0' <= c <= '9' then c as int - '0' as int
    else if 'a' <= c <= 'f' then c as int - 'a' as int + 10
    else c as int - 'A' as int + 10
  }

  predicate AllHex(s: string) {
    forall i :: 0 <= i < |s| ==> IsHex(s[i])
  }

  /** The value of a hexadecimal numeral. */
  function HexValue(s: string): nat
    requires AllHex(s)
  {
    if s == "" then 0 else HexValue(s[..|s| - 1]) * 16 + HexDigit(s[|s| - 1])
  }

  function Power16(n: nat): nat {
    if n == 0 then 1 else Power16(n - 1) * 16
  }

  lemma {:induction false} HexValueBound(s: string)
    requires AllHex(s)
    ensures HexValue(s) < Power16(|s|)
  {
    if s != "" {
      HexValueBound(s[..|s| - 1]);
    }
  }

  /** Eight hexadecimal digits, not all zero. */
  function NonceCount(nc: string): Option<nat> {
    if |nc| == 8 && AllHex(nc) && HexValue(nc) > 0 then Some(HexValue(nc)) else None
  }

  /** Shifts in one digit after another in 32 bits; eight digits never overflow them. */
  method ParseNonceCount(value: string) returns (r: Option<nat>)
    ensures r == NonceCount(value)
  {
    if |value| != 8 {
      return None;
    }
    var parsed := 0;
    for i := 0 to 8
      invariant AllHex(value[..i]) && parsed == HexValue(value[..i])
    {
      var c := value[i];
      if !IsHex(c) {
        return None;
      }
      NextDigit(value, i);
      parsed := (parsed * 16) % 0x1_0000_0000 + HexDigit(c);
    }
    assert value[..8] == value;
    return if parsed > 0 then Some(parsed) else None;
  }

  lemma NextDigit(value: string, i: nat)
    requires i < 8 <= |value| && AllHex(value[..i]) && IsHex(value[i])
    ensures AllHex(value[..i + 1])
    ensures HexValue(value[..i + 1]) == (HexValue(value[..i]) * 16) % 0x1_0000_0000 + HexDigit(value[i])
  {
    assert value[..i + 1][..i] == value[..i];
    assert HexValue(value[..i]) < 0x1000_0000 by {
      HexValueBound(value[..i]);
      assert Power16(3) == 0x1000 && Power16(5) == 0x10_0000 && Power16(7) == 0x1000_0000;
      PowerMonotone(i, 7);
    }
  }

  lemma {:induction false} PowerMonotone(a: nat, b: nat)
    requires a <= b
    ensures 1 <= Power16(a) <= Power16(b)
    decreases b
  {
    if b > 0 {
      if a < b {
        PowerMonotone(a, b - 1);
      } else {
        PowerMonotone(a - 1, b - 1);
      }
    }
  }

  /** A hexadecimal digit, in lower or upper case. */
  function HexChar(d: nat, upper: bool): char
    requires d < 16
  {
    (if upper then "0123456789ABCDEF" else "0123456789abcdef")[d]
  }

  /** A number in so many hexadecimal digits, as a client prints its nonce count. */
  function Hex(n: nat, width: nat, upper: bool): string {
    if width == 0 then "" else Hex(n / 16, width - 1, upper) + [HexChar(n % 16, upper)]
  }

  lemma HexCharValue(d: nat, upper: bool)
    requires d < 16
    ensures IsHex(HexChar(d, upper)) && HexDigit(HexChar(d, upper)) == d
  {
  }

  lemma {:induction false} HexValueOfHex(n: nat, width: nat, upper: bool)
    requires n < Power16(width)
    ensures |Hex(n, width, upper)| == width && AllHex(Hex(n, width, upper)) && HexValue(Hex(n, width, upper)) == n
  {
    if width > 0 {
      HexValueOfHex(n / 16, width - 1, upper);
      HexCharValue(n % 16, upper);
      var front := Hex(n / 16, width - 1, upper);
      assert Hex(n, width, upper)[..width - 1] == front;
    }
  }

  /** Every count from 1 to ffffffff, printed in eight digits of either case, is read back; no other text is. */
  lemma NonceCountRoundTrip(n: nat, upper: bool)
    requires n < 0x1_0000_0000
    ensures NonceCount(Hex(n, 8, upper)) == if n == 0 then None else Some(n)
  {
    assert Power16(3) == 0x1000 && Power16(5) == 0x10_0000 && Power16(8) == 0x1_0000_0000;
    HexValueOfHex(n, 8, upper);
  }

  lemma NotACount(nc: string)
    requires || |nc| != 8
             || exists i :: 0 <= i < |nc| && !('0' <= nc[i] <= '9' || 'a' <= nc[i] <= 'f' || 'A' <= nc[i] <= 'F')
    ensures NonceCount(nc) == None
  {
  }

  // ---- One nonce -----------------------------------------------------------

  predicate IsUser(u: Usage, c: Credential) {
    u.username == c.username && u.cnonce == c.cnonce
  }

  function FindUsage(us: seq<Usage>, c: Credential, i: nat := 0): (r: Option<nat>)
    requires i <= |us|
    ensures r.Some? ==> i <= r.value < |us| && IsUser(us[r.value], c)
    ensures r.None? ==> forall k :: i <= k < |us| ==> !IsUser(us[k], c)
    decreases |us| - i
  {
    if i == |us| then None
    else if IsUser(us[i], c) then Some(i)
    else FindUsage(us, c, i + 1)
  }

  /** The nonce with a usage record for the credential, if it has or can get one, and where. */
  function WithUsage(n: Nonce, c: Credential): (r: Option<(Nonce, nat)>)
    ensures r.Some? ==> r.value.1 < |r.value.0.usages| && IsUser(r.value.0.usages[r.value.1], c)
  {
    match FindUsage(n.usages, c)
    case Some(k) => Some((n, k))
    case None =>
      if n.usageCount >= MAX_USAGES || !Storable(c.username, FIELD_CAPACITY) || !Storable(c.cnonce, FIELD_CAPACITY) then None
      else Some((n.(usageCount := n.usageCount + 1, usages := [Usage(c.username, c.cnonce, 0, false)] + n.usages), 0))
  }

  /** The usage record after a use, if the use is in order. */
  function UseUsage(u: Usage, c: Credential): Option<Usage> {
    if !c.qop then
      if u.usedWithoutQop then None else Some(u.(usedWithoutQop := true))
    else
      match NonceCount(c.nc)
      case None => None
      case Some(nc) => if nc <= u.lastNc then None else Some(u.(lastNc := nc))
  }

  /** A use of a live nonce: the nonce afterwards, and whether the use was accepted. */
  function UseNonce(n: Nonce, c: Credential): (Nonce, bool) {
    match WithUsage(n, c)
    case None => (n, false)
    case Some((m, k)) =>
      match UseUsage(m.usages[k], c)
      case None => (m, false)
      case Some(u) => (m.(usages := m.usages[k := u]), true)
  }

  // ---- The list of nonces ---------------------------------------------------

  function FindNonce(ns: seq<Nonce>, value: string, i: nat := 0): (r: Option<nat>)
    requires i <= |ns|
    ensures r.Some? ==> i <= r.value < |ns| && ns[r.value].value == value
    ensures r.None? ==> forall k :: i <= k < |ns| ==> ns[k].value != value
    decreases |ns| - i
  {
    if i == |ns| then None
    else if ns[i].value == value then Some(i)
    else FindNonce(ns, value, i + 1)
  }

  function Commit(ns: seq<Nonce>, c: Credential, now: nat): (seq<Nonce>, bool) {
    match FindNonce(ns, c.nonce)
    case None => (ns, false)
    case Some(i) =>
      if ns[i].expiresAt <= now then (ns, false)
      else (ns[i := UseNonce(ns[i], c).0], UseNonce(ns[i], c).1)
  }

  datatype Validity = Live | Stale | Unknown

  /** Walks the list, unlinking expired nonces, until it meets the live nonce asked for. */
  function StatusLoop(ns: seq<Nonce>, i: nat, value: Option<string>, now: nat, stale: bool): (seq<Nonce>, Validity)
    requires i <= |ns|
    decreases |ns| - i
  {
    if i == |ns| then (ns, if stale then Stale else Unknown)
    else
      var matched := value == Some(ns[i].value);
      if ns[i].expiresAt <= now then StatusLoop(RemoveAt(ns, i), i, value, now, stale || matched)
      else if matched then (ns, Live)
      else StatusLoop(ns, i + 1, value, now, stale)
  }

  function Issue(ns: seq<Nonce>, value: string, now: nat): seq<Nonce> {
    [Nonce(value, now + NONCE_TTL_MS, 0, [])] + ns
  }

  /** The runtime's nonces; `Valid` says that their records stand for exactly the accepted uses. */
  class NonceTable {
    var nonces: seq<Nonce>
    ghost var issued: set<string>
    ghost var accepted: seq<Acceptance>

    ghost function Contents(): State
      reads this
    {
      State(nonces, issued, accepted)
    }

    ghost predicate Valid()
      reads this
    {
      Inv(Contents())
    }

    constructor ()
      ensures Valid() && Contents() == NO_NONCES
    {
      nonces, issued, accepted := [], {}, [];
      new;
      RunInv([]);
    }

    method Status(value: Option<string>, now: nat) returns (v: Validity)
      modifies this`nonces
      ensures (nonces, v) == StatusLoop(old(nonces), 0, value, now, false)
    {
      var i, stale := 0, false;
      while i < |nonces|
        invariant 0 <= i <= |nonces|
        invariant StatusLoop(nonces, i, value, now, stale) == StatusLoop(old(nonces), 0, value, now, false)
        decreases |nonces| - i
      {
        var matched := value == Some(nonces[i].value);
        if nonces[i].expiresAt <= now {
          nonces := RemoveAt(nonces, i);
          stale := stale || matched;
        } else if matched {
          return Live;
        } else {
          i := i + 1;
        }
      }
      return if stale then Stale else Unknown;
    }

    method CommitUsage(c: Credential, now: nat) returns (ok: bool)
      modifies this`nonces
      ensures (nonces, ok) == Commit(old(nonces), c, now)
    {
      var i := 0;
      while i < |nonces| && nonces[i].value != c.nonce
        invariant 0 <= i <= |nonces|
        invariant FindNonce(nonces, c.nonce) == FindNonce(nonces, c.nonce, i)
      {
        i := i + 1;
      }
      if i == |nonces| || nonces[i].expiresAt <= now {
        return false;
      }
      var n, k := nonces[i], 0;
      while k < |n.usages| && !IsUser(n.usages[k], c)
        invariant 0 <= k <= |n.usages|
        invariant FindUsage(n.usages, c) == FindUsage(n.usages, c, k)
      {
        k := k + 1;
      }
      if k == |n.usages| {
        if n.usageCount >= MAX_USAGES || !Storable(c.username, FIELD_CAPACITY) || !Storable(c.cnonce, FIELD_CAPACITY) {
          assert nonces[i := n] == nonces;
          return false;
        }
        n := n.(usages := [Usage(c.username, c.cnonce, 0, false)] + n.usages, usageCount := n.usageCount + 1);
        k := 0;
      }
      nonces := nonces[i := n];
      var u := n.usages[k];
      if !c.qop {
        if u.usedWithoutQop {
          return false;
        }
        u := u.(usedWithoutQop := true);
      } else {
        var nc := ParseNonceCount(c.nc);
        if nc.None? || nc.value <= u.lastNc {
          return false;
        }
        u := u.(lastNc := nc.value);
      }
      nonces := nonces[i := n.(usages := n.usages[k := u])];
      assert nonces == old(nonces)[i := nonces[i]];
      return true;
    }

    /** A challenge puts a nonce that was never used before at the front. */
    method IssueNonce(value: string, now: nat)
      requires Valid() && value !in issued
      modifies this
      ensures Valid() && Contents() == Apply(old(Contents()), Challenge(value, now))
    {
      StepInv(Contents(), Challenge(value, now));
      nonces := [Nonce(value, now + NONCE_TTL_MS, 0, [])] + nonces;
      issued := issued + {value};
    }

    method CheckNonce(value: Option<string>, now: nat) returns (v: Validity)
      requires Valid()
      modifies this
      ensures Valid() && Contents() == Apply(old(Contents()), Check(value, now))
      ensures v == StatusLoop(old(nonces), 0, value, now, false).1
    {
      StepInv(Contents(), Check(value, now));
      v := Status(value, now);
    }

    /** A use of a nonce: whatever is accepted is newer than all accepted uses of its user. */
    method UseCredential(c: Credential, now: nat) returns (ok: bool)
      requires Valid()
      modifies this
      ensures Valid() && Contents() == Apply(old(Contents()), Use(c, now))
      ensures NoReplay(accepted)
      ensures accepted == if ok then old(accepted) + [AcceptanceOf(c)] else old(accepted)
    {
      StepInv(Contents(), Use(c, now));
      ok := CommitUsage(c, now);
      accepted := if ok then accepted + [AcceptanceOf(c)] else accepted;
    }
  }

  // ---- Whole runs ------------------------------------------------------------

  /** An accepted use; no count means it was made without a quality of protection. */
  datatype Acceptance = Acceptance(nonce: string, username: string, cnonce: string, nc: Option<nat>)

  datatype State = State(nonces: seq<Nonce>, issued: set<string>, accepted: seq<Acceptance>)

  datatype Step =
    | Challenge(value: string, now: nat)
    | Check(asked: Option<string>, now: nat)
    | Use(credential: Credential, now: nat)

  const NO_NONCES := State([], {}, [])

  function AcceptanceOf(c: Credential): Acceptance {
    Acceptance(c.nonce, c.username, c.cnonce, if c.qop then NonceCount(c.nc) else None)
  }

  /** One step at any time of any clock; random nonce values are taken not to repeat. */
  function Apply(s: State, step: Step): State {
    match step
    case Challenge(value, now) =>
      if value in s.issued then s
      else s.(nonces := Issue(s.nonces, value, now), issued := s.issued + {value})
    case Check(value, now) => s.(nonces := StatusLoop(s.nonces, 0, value, now, false).0)
    case Use(c, now) =>
      var (nonces, accepted) := Commit(s.nonces, c, now);
      s.(nonces := nonces, accepted := if accepted then s.accepted + [AcceptanceOf(c)] else s.accepted)
  }

  function Run(s: State, steps: seq<Step>): State {
    if steps == [] then s else Apply(Run(s, steps[..|steps| - 1]), steps[|steps| - 1])
  }

  predicate SameUser(a: Acceptance, b: Acceptance) {
    a.nonce == b.nonce && a.username == b.username && a.cnonce == b.cnonce
  }

  /** No replay: per nonce, user and client nonce the counts grow, and a use without a count happens once. */
  predicate NoReplay(accepted: seq<Acceptance>) {
    forall i, j :: 0 <= i < j < |accepted| && SameUser(accepted[i], accepted[j]) && accepted[i].nc.Some? == accepted[j].nc.Some? ==>
      accepted[j].nc.Some? && accepted[i].nc.value < accepted[j].nc.value
  }

  predicate IsUseOf(a: Acceptance, nonce: string, u: Usage) {
    a.nonce == nonce && a.username == u.username && a.cnonce == u.cnonce
  }

  /** A usage record sums up the accepted uses it stands for: the largest count, and whether one had none. */
  ghost predicate Sums(nonce: string, u: Usage, accepted: seq<Acceptance>) {
    && (forall a :: a in accepted && IsUseOf(a, nonce, u) && a.nc.Some? ==> a.nc.value <= u.lastNc)
    && (u.lastNc > 0 ==> Acceptance(nonce, u.username, u.cnonce, Some(u.lastNc)) in accepted)
    && (u.usedWithoutQop <==> Acceptance(nonce, u.username, u.cnonce, None) in accepted)
  }

  predicate OneUsageEach(us: seq<Usage>) {
    forall i, j :: 0 <= i < j < |us| ==> us[i].username != us[j].username || us[i].cnonce != us[j].cnonce
  }

  /** A nonce's records stand for exactly its accepted uses, one record per user, at most 64 in all. */
  ghost predicate Faithful(n: Nonce, accepted: seq<Acceptance>) {
    && n.usageCount == |n.usages| <= MAX_USAGES
    && OneUsageEach(n.usages)
    && (forall u :: u in n.usages ==> Sums(n.value, u, accepted))
    && (forall a :: a in accepted && a.nonce == n.value ==> exists u :: u in n.usages && IsUseOf(a, n.value, u))
  }

  predicate DistinctNonces(ns: seq<Nonce>) {
    forall i, j :: 0 <= i < j < |ns| ==> ns[i].value != ns[j].value
  }

  ghost predicate Inv(s: State) {
    && DistinctNonces(s.nonces)
    && (forall n :: n in s.nonces ==> n.value in s.issued && Faithful(n, s.accepted))
    && (forall a :: a in s.accepted ==> a.nonce in s.issued)
    && NoReplay(s.accepted)
  }

  /** A record that is there, or can be made, is found; making one loses nothing. */
  lemma WithUsageFaithful(n: Nonce, c: Credential, accepted: seq<Acceptance>)
    requires Faithful(n, accepted) && n.value == c.nonce && WithUsage(n, c).Some?
    ensures Faithful(WithUsage(n, c).value.0, accepted) && WithUsage(n, c).value.0.value == n.value
  {
    if FindUsage(n.usages, c).None? {
      var m := WithUsage(n, c).value.0;
      var u := m.usages[0];
      assert forall v :: v in m.usages <==> v == u || v in n.usages;
      forall a | a in accepted && a.nonce == n.value
        ensures !IsUseOf(a, n.value, u)
        ensures exists v :: v in m.usages && IsUseOf(a, m.value, v)
      {
        var v :| v in n.usages && IsUseOf(a, n.value, v);
        var k :| 0 <= k < |n.usages| && n.usages[k] == v;
        assert v in m.usages && !IsUser(n.usages[k], c) && IsUseOf(a, m.value, v);
      }
    }
  }

  /** The accepted uses it is newer than. */
  ghost predicate Newest(latest: Acceptance, accepted: seq<Acceptance>) {
    forall a :: a in accepted && SameUser(a, latest) && a.nc.Some? == latest.nc.Some? ==>
      latest.nc.Some? && a.nc.value < latest.nc.value
  }

  /** An accepted use is newer than all accepted ones of its user, and the record then says so. */
  lemma UsedSums(u: Usage, c: Credential, accepted: seq<Acceptance>)
    requires Sums(c.nonce, u, accepted) && IsUser(u, c) && UseUsage(u, c).Some?
    ensures Newest(AcceptanceOf(c), accepted)
    ensures Sums(c.nonce, UseUsage(u, c).value, accepted + [AcceptanceOf(c)])
  {
    var latest := AcceptanceOf(c);
    assert forall a :: a in accepted + [latest] <==> a in accepted || a == latest;
    assert forall a :: SameUser(a, latest) <==> IsUseOf(a, c.nonce, u);
  }

  lemma OtherSums(nonce: string, u: Usage, accepted: seq<Acceptance>, latest: Acceptance)
    requires Sums(nonce, u, accepted) && !IsUseOf(latest, nonce, u)
    ensures Sums(nonce, u, accepted + [latest])
  {
    assert forall a :: a in accepted + [latest] <==> a in accepted || a == latest;
  }

  lemma UseUsageFaithful(m: Nonce, k: nat, c: Credential, accepted: seq<Acceptance>)
    requires Faithful(m, accepted) && m.value == c.nonce && k < |m.usages| && IsUser(m.usages[k], c)
    requires UseUsage(m.usages[k], c).Some?
    ensures Faithful(m.(usages := m.usages[k := UseUsage(m.usages[k], c).value]), accepted + [AcceptanceOf(c)])
    ensures Newest(AcceptanceOf(c), accepted)
  {
    var u, u' := m.usages[k], UseUsage(m.usages[k], c).value;
    var us := m.usages[k := u'];
    var latest, all := AcceptanceOf(c), accepted + [AcceptanceOf(c)];
    assert u in m.usages;
    UsedSums(u, c, accepted);
    forall v | v in us
      ensures Sums(m.value, v, all)
    {
      var i :| 0 <= i < |us| && us[i] == v;
      if i != k {
        assert m.usages[i] in m.usages;
        OtherSums(m.value, v, accepted, latest);
      }
    }
    forall a | a in all && a.nonce == m.value
      ensures exists v :: v in us && IsUseOf(a, m.value, v)
    {
      UsesAreKept(m, k, u', accepted, latest, a);
    }
  }

  lemma UsesAreKept(m: Nonce, k: nat, u': Usage, accepted: seq<Acceptance>, latest: Acceptance, a: Acceptance)
    requires Faithful(m, accepted) && k < |m.usages| && IsUseOf(latest, m.value, u')
    requires u'.username == m.usages[k].username && u'.cnonce == m.usages[k].cnonce
    requires a in accepted + [latest] && a.nonce == m.value
    ensures exists v :: v in m.usages[k := u'] && IsUseOf(a, m.value, v)
  {
    var us := m.usages[k := u'];
    if a in accepted {
      var v :| v in m.usages && IsUseOf(a, m.value, v);
      var i :| 0 <= i < |m.usages| && m.usages[i] == v;
      assert us[i] in us && IsUseOf(a, m.value, us[i]);
    } else {
      assert us[k] in us && IsUseOf(a, m.value, us[k]);
    }
  }

  lemma OtherNonceFaithful(n: Nonce, accepted: seq<Acceptance>, latest: Acceptance)
    requires Faithful(n, accepted) && latest.nonce != n.value
    ensures Faithful(n, accepted + [latest])
  {
    assert forall a :: a in accepted + [latest] <==> a in accepted || a == latest;
    assert forall u :: u in n.usages ==> !IsUseOf(latest, n.value, u);
  }

  /** A use of one nonce leaves its records standing for exactly the accepted uses. */
  lemma UseNonceFaithful(n: Nonce, c: Credential, accepted: seq<Acceptance>)
    requires Faithful(n, accepted) && n.value == c.nonce
    ensures var (m, ok) := UseNonce(n, c);
            && m.value == n.value
            && Faithful(m, if ok then accepted + [AcceptanceOf(c)] else accepted)
            && (ok ==> Newest(AcceptanceOf(c), accepted))
  {
    var w := WithUsage(n, c);
    if w.Some? {
      WithUsageFaithful(n, c, accepted);
      if UseUsage(w.value.0.usages[w.value.1], c).Some? {
        UseUsageFaithful(w.value.0, w.value.1, c, accepted);
      }
    }
  }

  lemma NewestNoReplay(accepted: seq<Acceptance>, latest: Acceptance)
    requires NoReplay(accepted) && Newest(latest, accepted)
    ensures NoReplay(accepted + [latest])
  {
  }

  lemma UseInv(s: State, c: Credential, now: nat)
    requires Inv(s)
    ensures Inv(Apply(s, Use(c, now)))
  {
    var found := FindNonce(s.nonces, c.nonce);
    if found.Some? && s.nonces[found.value].expiresAt > now {
      var i, n := found.value, s.nonces[found.value];
      assert n in s.nonces;
      UseNonceFaithful(n, c, s.accepted);
      var (m, ok) := UseNonce(n, c);
      if ok {
        NewestNoReplay(s.accepted, AcceptanceOf(c));
      }
      ReplaceNonce(s, i, m, if ok then s.accepted + [AcceptanceOf(c)] else s.accepted, AcceptanceOf(c));
    }
  }

  /** One nonce changes, together with the accepted uses; all others stand for what they stood for. */
  lemma ReplaceNonce(s: State, i: nat, m: Nonce, accepted: seq<Acceptance>, latest: Acceptance)
    requires Inv(s) && i < |s.nonces| && m.value == s.nonces[i].value == latest.nonce
    requires accepted == s.accepted || accepted == s.accepted + [latest]
    requires Faithful(m, accepted) && NoReplay(accepted)
    ensures Inv(s.(nonces := s.nonces[i := m], accepted := accepted))
  {
    var nonces := s.nonces[i := m];
    forall x | x in nonces
      ensures x.value in s.issued && Faithful(x, accepted)
    {
      var j :| 0 <= j < |nonces| && nonces[j] == x;
      assert s.nonces[j] in s.nonces;
      if j != i && accepted != s.accepted {
        OtherNonceFaithful(x, s.accepted, latest);
      }
    }
    assert s.nonces[i] in s.nonces;
  }

  lemma {:induction false} StatusKeeps(ns: seq<Nonce>, i: nat, value: Option<string>, now: nat, stale: bool)
    requires i <= |ns| && DistinctNonces(ns)
    ensures var (r, v) := StatusLoop(ns, i, value, now, stale);
            && DistinctNonces(r)
            && (forall n :: n in r ==> n in ns)
            && (forall n :: n in ns && n.expiresAt > now ==> n in r)
    decreases |ns| - i
  {
    if i < |ns| {
      if ns[i].expiresAt <= now {
        var left := RemoveAt(ns, i);
        assert forall k :: 0 <= k < |left| ==> left[k] == ns[if k < i then k else k + 1];
        forall n | n in ns && n.expiresAt > now
          ensures n in left
        {
          var k :| 0 <= k < |ns| && ns[k] == n;
          assert left[if k < i then k else k - 1] == n;
        }
        StatusKeeps(left, i, value, now, stale || value == Some(ns[i].value));
      } else if value != Some(ns[i].value) {
        StatusKeeps(ns, i + 1, value, now, stale);
      }
    }
  }

  lemma {:induction false} StatusFrom(ns: seq<Nonce>, i: nat, value: string, now: nat, stale: bool)
    requires i <= |ns| && DistinctNonces(ns)
    ensures var v := StatusLoop(ns, i, Some(value), now, stale).1;
            && (v == Live <==> exists k :: i <= k < |ns| && ns[k].value == value && ns[k].expiresAt > now)
            && (v == Unknown <==> !stale && forall k :: i <= k < |ns| ==> ns[k].value != value)
    decreases |ns| - i
  {
    if i < |ns| {
      if ns[i].expiresAt <= now {
        var left := RemoveAt(ns, i);
        assert forall k :: i <= k < |left| ==> left[k] == ns[k + 1];
        assert forall k :: i < k < |ns| ==> ns[k] == left[k - 1];
        StatusFrom(left, i, value, now, stale || ns[i].value == value);
      } else if ns[i].value != value {
        StatusFrom(ns, i + 1, value, now, stale);
      }
    }
  }

  /**
   A presented nonce is live exactly if it is held and unexpired, stale exactly if it
   is held and expired, and unknown otherwise; no unexpired nonce is ever unlinked.
   */
  lemma StatusExact(ns: seq<Nonce>, value: string, now: nat)
    requires DistinctNonces(ns)
    ensures var (r, v) := StatusLoop(ns, 0, Some(value), now, false);
            && (v == Live <==> exists n :: n in ns && n.value == value && n.expiresAt > now)
            && (v == Stale <==> exists n :: n in ns && n.value == value && n.expiresAt <= now)
            && (forall n :: n in ns && n.expiresAt > now ==> n in r)
            && (forall n :: n in r ==> n in ns)
  {
    StatusKeeps(ns, 0, Some(value), now, false);
    StatusFrom(ns, 0, value, now, false);
    if n :| n in ns && n.value == value {
      var k :| 0 <= k < |ns| && ns[k] == n;
      assert forall j :: 0 <= j < |ns| && j != k ==> ns[j].value != value;
    }
  }

  lemma {:induction false} StatusUnlinks(ns: seq<Nonce>, i: nat, value: Option<string>, now: nat, stale: bool)
    requires i <= |ns| && forall k :: 0 <= k < i ==> ns[k].expiresAt > now
    ensures var (r, v) := StatusLoop(ns, i, value, now, stale);
            v != Live ==> forall n :: n in r ==> n.expiresAt > now
    decreases |ns| - i
  {
    if i < |ns| {
      if ns[i].expiresAt <= now {
        StatusUnlinks(RemoveAt(ns, i), i, value, now, stale || value == Some(ns[i].value));
      } else if value != Some(ns[i].value) {
        StatusUnlinks(ns, i + 1, value, now, stale);
      }
    }
  }

  /** Unless the walk stops at the live nonce asked for, a check leaves exactly the unexpired nonces. */
  lemma CheckLeavesUnexpired(s: State, value: Option<string>, now: nat, n: Nonce)
    requires DistinctNonces(s.nonces)
    requires forall live :: live in s.nonces && live.expiresAt > now ==> value != Some(live.value)
    ensures n in Apply(s, Check(value, now)).nonces <==> n in s.nonces && n.expiresAt > now
  {
    StatusKeeps(s.nonces, 0, value, now, false);
    StatusUnlinks(s.nonces, 0, value, now, false);
    LiveIsHeld(s.nonces, 0, value, now, false);
  }

  lemma {:induction false} LiveIsHeld(ns: seq<Nonce>, i: nat, value: Option<string>, now: nat, stale: bool)
    requires i <= |ns|
    ensures StatusLoop(ns, i, value, now, stale).1 == Live ==>
              exists n :: n in ns && n.expiresAt > now && value == Some(n.value)
    decreases |ns| - i
  {
    if i < |ns| {
      if ns[i].expiresAt <= now {
        LiveIsHeld(RemoveAt(ns, i), i, value, now, stale || value == Some(ns[i].value));
        assert forall n :: n in RemoveAt(ns, i) ==> n in ns;
      } else if value == Some(ns[i].value) {
        assert ns[i] in ns;
      } else {
        LiveIsHeld(ns, i + 1, value, now, stale);
      }
    }
  }

  /** A nonce just issued is live for five minutes and stale after that; the others keep their places behind it. */
  lemma IssuedIsLive(ns: seq<Nonce>, value: string, issued: nat, now: nat)
    requires DistinctNonces(ns) && forall n :: n in ns ==> n.value != value
    ensures StatusLoop(Issue(ns, value, issued), 0, Some(value), now, false).1
         == if now < issued + 300000 then Live else Stale
    ensures |Issue(ns, value, issued)| == |ns| + 1 && Issue(ns, value, issued)[1..] == ns
    ensures Issue(ns, value, issued)[0].usages == [] && Issue(ns, value, issued)[0].usageCount == 0
  {
    var all := Issue(ns, value, issued);
    assert all[0] in all;
    assert DistinctNonces(all);
    StatusExact(all, value, now);
    assert forall n :: n in all && n.value == value ==> n == all[0];
  }

  /** The first use of a fresh nonce by a user with storable names is accepted, whatever its count. */
  lemma FirstUseIsAccepted(ns: seq<Nonce>, value: string, issued: nat, c: Credential, now: nat)
    requires c.nonce == value && now < issued + 300000 && (c.qop ==> NonceCount(c.nc).Some?)
    requires |c.username| < 128 && '\0' !in c.username && |c.cnonce| < 128 && '\0' !in c.cnonce
    ensures Commit(Issue(ns, value, issued), c, now).1
  {
  }

  lemma StepInv(s: State, step: Step)
    requires Inv(s)
    ensures Inv(Apply(s, step))
  {
    match step
    case Challenge(value, now) =>
      if value !in s.issued {
        var s' := Apply(s, step);
        assert forall n :: n in s'.nonces <==> n == s'.nonces[0] || n in s.nonces;
      }
    case Check(value, now) => StatusKeeps(s.nonces, 0, value, now, false);
    case Use(c, now) => UseInv(s, c, now);
  }

  lemma {:induction false} RunInv(steps: seq<Step>)
    ensures Inv(Run(NO_NONCES, steps))
  {
    if steps != [] {
      RunInv(steps[..|steps| - 1]);
      StepInv(Run(NO_NONCES, steps[..|steps| - 1]), steps[|steps| - 1]);
    }
  }

  /**
   In every run, whatever the clock does, the accepted counts of each nonce, user
   name and client nonce strictly increase and a use without a count is accepted at
   most once; and every held nonce counts its usage records correctly, up to 64.
   */
  lemma UsesAreNeverReplayed(steps: seq<Step>)
    ensures NoReplay(Run(NO_NONCES, steps).accepted)
    ensures forall n :: n in Run(NO_NONCES, steps).nonces ==> n.usageCount == |n.usages| <= MAX_USAGES
  {
    RunInv(steps);
  }

  /** The credential's nonce, held and unexpired. */
  predicate IsLive(s: State, n: Nonce, c: Credential, now: nat) {
    n in s.nonces && n.value == c.nonce && n.expiresAt > now
  }

  predicate HasRecord(n: Nonce, c: Credential) {
    exists u :: u in n.usages && IsUser(u, c)
  }

  /** The use is newer than every accepted use of the same nonce, user name and client nonce. */
  predicate IsFresh(accepted: seq<Acceptance>, c: Credential) {
    && (c.qop ==> NonceCount(c.nc).Some?)
    && (forall a :: a in accepted && SameUser(a, AcceptanceOf(c)) && a.nc.Some? == c.qop ==>
          c.qop && a.nc.value < NonceCount(c.nc).value)
  }

  /** A use is recorded as accepted exactly when it is accepted, and then last. */
  lemma UseIsRecorded(s: State, c: Credential, now: nat)
    ensures var s' := Apply(s, Use(c, now)); var r := Commit(s.nonces, c, now);
            && s'.nonces == r.0 && s'.issued == s.issued
            && |s'.accepted| == |s.accepted| + (if r.1 then 1 else 0) && s.accepted <= s'.accepted
            && (r.1 ==>
                  var a := s'.accepted[|s.accepted|];
                  && a.nonce == c.nonce && a.username == c.username && a.cnonce == c.cnonce
                  && a.nc == if c.qop then NonceCount(c.nc) else None)
  {
  }

  /**
   Exactly when a use is accepted, in terms of what was accepted before: the nonce is
   live, it has or can get a record for the user, and the use is fresh.
   */
  lemma AcceptedExactly(s: State, c: Credential, now: nat)
    requires Inv(s)
    ensures Commit(s.nonces, c, now).1 <==>
              exists n :: && IsLive(s, n, c, now)
                          && (HasRecord(n, c) || (|n.usages| < MAX_USAGES && Storable(c.username, FIELD_CAPACITY) && Storable(c.cnonce, FIELD_CAPACITY)))
                          && IsFresh(s.accepted, c)
  {
    var found := FindNonce(s.nonces, c.nonce);
    if found.Some? {
      var i, n := found.value, s.nonces[found.value];
      assert n in s.nonces;
      assert forall m :: m in s.nonces && m.value == c.nonce ==> m == n;
      if n.expiresAt > now {
        RecordFound(n, c);
        if WithUsage(n, c).Some? {
          FreshExactly(s, n, c);
        }
        assert IsLive(s, n, c, now);
      }
    }
  }

  lemma RecordFound(n: Nonce, c: Credential)
    requires n.usageCount == |n.usages|
    ensures WithUsage(n, c).Some? <==>
              HasRecord(n, c) || (|n.usages| < MAX_USAGES && Storable(c.username, FIELD_CAPACITY) && Storable(c.cnonce, FIELD_CAPACITY))
  {
    var k := FindUsage(n.usages, c);
    if k.Some? {
      assert n.usages[k.value] in n.usages;
    }
  }

  lemma FreshExactly(s: State, n: Nonce, c: Credential)
    requires Inv(s) && n in s.nonces && n.value == c.nonce && WithUsage(n, c).Some?
    ensures var (m, k) := WithUsage(n, c).value; UseUsage(m.usages[k], c).Some? <==> IsFresh(s.accepted, c)
  {
    WithUsageFaithful(n, c, s.accepted);
    var (m, k) := WithUsage(n, c).value;
    var u := m.usages[k];
    assert u in m.usages && Sums(m.value, u, s.accepted);
    assert forall a :: SameUser(a, AcceptanceOf(c)) <==> IsUseOf(a, m.value, u);
    if !c.qop && u.usedWithoutQop {
      var a := Acceptance(m.value, u.username, u.cnonce, None);
      assert a in s.accepted && SameUser(a, AcceptanceOf(c));
    }
    if c.qop && u.lastNc > 0 {
      var a := Acceptance(m.value, u.username, u.cnonce, Some(u.lastNc));
      assert a in s.accepted && SameUser(a, AcceptanceOf(c));
    }
  }
}
