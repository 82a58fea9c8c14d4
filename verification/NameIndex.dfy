/**
 * The name-to-number maps of the command line: open addressing with linear probing over case-folded
 * hashes. Models cliHash, do_insert, insert_name and find_name_id of common/src/cli/cli_system.c.
 */
module NameIndex {
  import opened Arith

  const MAP_EMPTY := 0xFF

  // ---- The hash ----

  function Upper(c: Byte): Byte {
    if 'a' as nat <= c <= 'z' as nat then c - 32 else c
  }

  /** `((hash << 5) + hash) + c` in 32 bits, over the bytes before the terminator. */
  function HashOf(name: seq<Byte>): (h: nat)
    ensures h < U32
  {
    if name == [] then 5381
    else (HashOf(name[..|name| - 1]) * 33 + Upper(name[|name| - 1])) % U32
  }

  method CliHash(name: seq<Byte>) returns (hash: nat)
    ensures hash == HashOf(name) == (5381 * Power33(|name|) + Digits(name)) % 0x1_0000_0000
  {
    HashIs(name);
    hash := 5381;
    var i := 0;
    while i < |name|
      invariant 0 <= i <= |name| && hash == HashOf(name[..i])
    {
      assert name[..i + 1][..i] == name[..i];
      hash := (hash * 33 + Upper(name[i])) % U32;
      i := i + 1;
    }
    assert name[..i] == name;
  }

  /** The same letter, in either case. */
  predicate SameLetter(a: Byte, b: Byte) {
    a == b || (97 <= a <= 122 && b == a - 32) || (97 <= b <= 122 && a == b - 32)
  }

  /** Names that differ only in the case of letters have the same hash. */
  lemma {:induction false} HashFoldsCase(a: seq<Byte>, b: seq<Byte>)
    requires |a| == |b| && forall i :: 0 <= i < |a| ==> SameLetter(a[i], b[i])
    ensures HashOf(a) == HashOf(b)
  {
    if a != [] {
      HashFoldsCase(a[..|a| - 1], b[..|b| - 1]);
    }
  }

  function Power33(n: nat): nat {
    if n == 0 then 1 else 33 * Power33(n - 1)
  }

  /** The bytes as digits to the base 33, the first one highest, small letters counted as capital ones. */
  function Digits(name: seq<Byte>): nat {
    if name == [] then 0
    else
      var c: nat := name[0];
      (if 97 <= c <= 122 then c - 32 else c) * Power33(|name| - 1) + Digits(name[1..])
  }

  lemma {:induction false} DigitsLast(name: seq<Byte>)
    requires name != []
    ensures Digits(name) == Digits(name[..|name| - 1]) * 33 + Upper(name[|name| - 1])
  {
    if |name| > 1 {
      DigitsLast(name[1..]);
      assert name[1..][..|name| - 2] == name[..|name| - 1][1..];
      assert name[1..][|name| - 2] == name[|name| - 1];
      var c: nat := Upper(name[0]);
      Regrouped(c, Power33(|name| - 2), Digits(name[..|name| - 1][1..]));
    } else {
      assert name[1..] == [] && name[..0] == [];
    }
  }

  lemma Regrouped(c: nat, p: nat, d: nat)
    ensures (c * p + d) * 33 == c * (33 * p) + d * 33
  {
  }

  lemma CutOnce(x: nat, y: nat, c: nat)
    requires x == y % U32
    ensures (x * 33 + c) % U32 == (y * 33 + c) % U32
  {
    ModIs(x * 33 + c, (y * 33 + c) / U32 - y / U32 * 33, (y * 33 + c) % U32, U32);
  }

  /** The hash is the polynomial 5381 * 33^n + c1 * 33^(n-1) + ... + cn over the folded bytes, cut to 32 bits. */
  lemma {:induction false} HashIs(name: seq<Byte>)
    ensures HashOf(name) == (5381 * Power33(|name|) + Digits(name)) % U32
  {
    if name != [] {
      var front := name[..|name| - 1];
      HashIs(front);
      DigitsLast(name);
      CutOnce(HashOf(front), 5381 * Power33(|front|) + Digits(front), Upper(name[|name| - 1]));
    }
  }

  // ---- Probing ----

  /** What probing sees of a slot: nothing, or the hash of the entry the slot points to. */
  datatype Cell = Empty | Full(hash: nat)

  function Following(size: nat, slot: nat): nat {
    if slot + 1 == size then 0 else slot + 1
  }

  /** The slot at which probing for a hash comes to rest, in at most `fuel` moves. */
  function Probe(view: seq<Cell>, hash: nat, slot: nat, fuel: nat): (r: nat)
    requires slot < |view|
    ensures r < |view|
    decreases fuel
  {
    if fuel == 0 || view[slot] == Empty || view[slot] == Full(hash) then slot
    else Probe(view, hash, Following(|view|, slot), fuel - 1)
  }

  function Home(size: nat, hash: nat): (slot: nat)
    requires size > 0
    ensures slot < size
  {
    hash % size
  }

  function Distance(size: nat, from: nat, to: nat): nat
    requires from < size && to < size
  {
    if from <= to then to - from else size - from + to
  }

  /** Every entry is where probing for its hash comes to rest. */
  ghost predicate Reachable(view: seq<Cell>) {
    |view| > 0 && forall s :: 0 <= s < |view| && view[s].Full? ==>
      Probe(view, view[s].hash, Home(|view|, view[s].hash), |view|) == s
  }

  /** While some slot is empty, probing comes to rest at an empty slot or at the hash sought. */
  lemma {:induction false} ProbeRests(view: seq<Cell>, hash: nat, slot: nat, fuel: nat, empty: nat)
    requires slot < |view| && empty < |view| && view[empty] == Empty && fuel >= Distance(|view|, slot, empty)
    ensures var r := Probe(view, hash, slot, fuel); view[r] == Empty || view[r] == Full(hash)
    decreases fuel
  {
    if fuel > 0 && view[slot] != Empty && view[slot] != Full(hash) {
      ProbeRests(view, hash, Following(|view|, slot), fuel - 1, empty);
    }
  }

  /** Filling an empty slot does not change where probing finds another hash. */
  lemma {:induction false} ProbeStays(view: seq<Cell>, hash: nat, slot: nat, fuel: nat, e: nat, cell: Cell)
    requires slot < |view| && e < |view| && view[e] == Empty
    requires view[Probe(view, hash, slot, fuel)] == Full(hash)
    ensures Probe(view[e := cell], hash, slot, fuel) == Probe(view, hash, slot, fuel)
    decreases fuel
  {
    if fuel > 0 && view[slot] != Full(hash) {
      ProbeStays(view, hash, Following(|view|, slot), fuel - 1, e, cell);
    }
  }

  /** Probing for a hash comes to rest at the slot just filled with it. */
  lemma {:induction false} ProbeFinds(view: seq<Cell>, hash: nat, slot: nat, fuel: nat)
    requires slot < |view| && view[Probe(view, hash, slot, fuel)] == Empty
    ensures var e := Probe(view, hash, slot, fuel);
            Probe(view[e := Full(hash)], hash, slot, fuel) == e
    decreases fuel
  {
    if fuel > 0 && view[slot] != Empty && view[slot] != Full(hash) {
      ProbeFinds(view, hash, Following(|view|, slot), fuel - 1);
    }
  }

  function Rest(view: seq<Cell>, hash: nat): (r: nat)
    requires |view| > 0
    ensures r < |view|
  {
    Probe(view, hash, Home(|view|, hash), |view|)
  }

  lemma FillKeeps(view: seq<Cell>, hash: nat)
    requires Reachable(view) && view[Rest(view, hash)] == Empty
    ensures Reachable(view[Rest(view, hash) := Full(hash)])
  {
    var e := Rest(view, hash);
    var now := view[e := Full(hash)];
    forall s | 0 <= s < |now| && now[s].Full?
      ensures Probe(now, now[s].hash, Home(|now|, now[s].hash), |now|) == s
    {
      if s == e {
        ProbeFinds(view, hash, Home(|view|, hash), |view|);
      } else {
        ProbeStays(view, view[s].hash, Home(|view|, view[s].hash), |view|, e, Full(hash));
      }
    }
  }

  /** Probing finds a hash exactly when some slot has it. */
  lemma RestFinds(view: seq<Cell>, hash: nat, empty: nat)
    requires Reachable(view) && empty < |view| && view[empty] == Empty
    ensures view[Rest(view, hash)] == Full(hash) <==> exists s :: 0 <= s < |view| && view[s] == Full(hash)
    ensures view[Rest(view, hash)] == Full(hash) || view[Rest(view, hash)] == Empty
  {
    ProbeRests(view, hash, Home(|view|, hash), |view|, empty);
    if s :| 0 <= s < |view| && view[s] == Full(hash) {
      assert Rest(view, hash) == s;
    }
  }

  // ---- Room ----

  function Used(view: seq<Cell>): (n: nat)
    ensures n <= |view|
  {
    if view == [] then 0 else Used(view[..|view| - 1]) + (if view[|view| - 1].Full? then 1 else 0)
  }

  lemma {:induction false} RoomLeft(view: seq<Cell>) returns (e: nat)
    requires Used(view) < |view|
    ensures e < |view| && view[e] == Empty
  {
    if view[|view| - 1] == Empty {
      e := |view| - 1;
    } else {
      e := RoomLeft(view[..|view| - 1]);
    }
  }

  // ---- One map and its history ----

  /** An entry: its position in the table, its hash and its number. */
  datatype Entry = Entry(at: nat, hash: nat, id: int)

  /** The last entry with a hash; its position in the history, or the length when there is none. */
  function LastWith(log: seq<Entry>, hash: nat): (k: nat)
    ensures k < |log| ==> log[k].hash == hash && forall j :: k < j < |log| ==> log[j].hash != hash
    ensures k >= |log| ==> forall j :: 0 <= j < |log| ==> log[j].hash != hash
    ensures k <= |log|
  {
    if log == [] then 0
    else if log[|log| - 1].hash == hash then |log| - 1
    else
      var front := LastWith(log[..|log| - 1], hash);
      if front == |log| - 1 then |log| else front
  }

  /** Linear search of the history for the newest entry. */
  function Lookup(log: seq<Entry>, hash: nat): int {
    var k := LastWith(log, hash);
    if k < |log| then log[k].id else -1
  }

  /** A name just entered is found by any variant of it in other case, and its number is the answer. */
  lemma VariantFound(log: seq<Entry>, at: nat, id: int, name: seq<Byte>, token: seq<Byte>)
    requires |name| == |token| && forall i :: 0 <= i < |name| ==> SameLetter(name[i], token[i])
    ensures Lookup(log + [Entry(at, HashOf(name), id)], HashOf(token)) == id
  {
    HashFoldsCase(name, token);
  }

  lemma LastWithAdded(log: seq<Entry>, e: Entry, hash: nat)
    ensures LastWith(log + [e], hash)
            == if e.hash == hash then |log|
               else if LastWith(log, hash) == |log| then |log| + 1
               else LastWith(log, hash)
  {
    assert (log + [e])[..|log|] == log;
  }

  /** The position may be written with a hash: no newest entry with another hash is there. */
  ghost predicate Replaceable(log: seq<Entry>, at: nat, hash: nat) {
    forall k :: 0 <= k < |log| && IsNewest(log, k) && log[k].at == at ==> log[k].hash == hash
  }

  /** No later entry has its hash. */
  ghost predicate IsNewest(log: seq<Entry>, k: nat)
    requires k < |log|
  {
    LastWith(log, log[k].hash) == k
  }

  function ViewOf(slots: seq<nat>, hashes: seq<nat>): (v: seq<Cell>)
    ensures |v| == |slots|
  {
    seq(|slots|, s requires 0 <= s < |slots| =>
      if slots[s] != MAP_EMPTY && slots[s] < |hashes| then Full(hashes[slots[s]]) else Empty)
  }

  /** The table holds the newest entry with each hash. */
  ghost predicate Stored(hashes: seq<nat>, ids: seq<int>, log: seq<Entry>) {
    && |hashes| == |ids|
    && (forall k :: 0 <= k < |log| && IsNewest(log, k) ==>
          log[k].at < |hashes| && hashes[log[k].at] == log[k].hash && ids[log[k].at] == log[k].id)
  }

  /** Every slot in use points to the newest entry with its hash. */
  ghost predicate AllNewest(slots: seq<nat>, hashes: seq<nat>, log: seq<Entry>) {
    forall s :: 0 <= s < |slots| && slots[s] != MAP_EMPTY ==> Newest(slots, hashes, log, s)
  }

  /** Every entry's hash has a slot. */
  ghost predicate AllHaveSlots(slots: seq<nat>, hashes: seq<nat>, log: seq<Entry>) {
    forall k :: 0 <= k < |log| ==> HasSlot(slots, hashes, log[k].hash)
  }

  ghost predicate Tracks(slots: seq<nat>, hashes: seq<nat>, ids: seq<int>, log: seq<Entry>) {
    && |hashes| <= MAP_EMPTY && 2 * |hashes| <= |slots|
    && Stored(hashes, ids, log) && AllNewest(slots, hashes, log) && AllHaveSlots(slots, hashes, log)
    && Reachable(ViewOf(slots, hashes))
  }

  predicate SlotHas(slots: seq<nat>, hashes: seq<nat>, s: nat, hash: nat) {
    s < |slots| && slots[s] != MAP_EMPTY && slots[s] < |hashes| && hashes[slots[s]] == hash
  }

  ghost predicate HasSlot(slots: seq<nat>, hashes: seq<nat>, hash: nat) {
    exists s :: 0 <= s < |slots| && SlotHas(slots, hashes, s, hash)
  }

  lemma {:induction false} Pigeons(at: seq<nat>, n: nat)
    requires forall k :: 0 <= k < |at| ==> at[k] < n
    requires forall j, k :: 0 <= j < k < |at| ==> at[j] != at[k]
    ensures |at| <= n
    decreases n
  {
    if at == [] {
      return;
    }
    assert at[0] < n;
    if k :| 0 <= k < |at| && at[k] == n - 1 {
      Pigeons(at[..k] + at[k + 1..], n - 1);
    } else {
      Pigeons(at, n - 1);
    }
  }

  /** The slots in use, in order. */
  function FullSlots(view: seq<Cell>): (r: seq<nat>)
    ensures |r| == Used(view)
    ensures forall k :: 0 <= k < |r| ==> r[k] < |view| && view[r[k]].Full?
    ensures forall j, k :: 0 <= j < k < |r| ==> r[j] < r[k]
  {
    if view == [] then []
    else
      var front := FullSlots(view[..|view| - 1]);
      if view[|view| - 1].Full? then front + [|view| - 1] else front
  }

  /** Two slots in use point to different positions. */
  lemma SlotsApart(slots: seq<nat>, hashes: seq<nat>, s: nat, t: nat)
    requires Reachable(ViewOf(slots, hashes)) && s < |slots| && t < |slots|
    requires ViewOf(slots, hashes)[s].Full? && ViewOf(slots, hashes)[t].Full? && slots[s] == slots[t]
    ensures s == t
  {
    var view := ViewOf(slots, hashes);
    assert Probe(view, view[s].hash, Home(|view|, view[s].hash), |view|) == s;
    assert Probe(view, view[t].hash, Home(|view|, view[t].hash), |view|) == t;
  }

  /** At most half of the slots are taken, so some slot is empty. */
  lemma HasRoom(slots: seq<nat>, hashes: seq<nat>, ids: seq<int>, log: seq<Entry>) returns (e: nat)
    requires Tracks(slots, hashes, ids, log) && |hashes| > 0
    ensures e < |slots| && ViewOf(slots, hashes)[e] == Empty && Used(ViewOf(slots, hashes)) <= |hashes|
  {
    var view := ViewOf(slots, hashes);
    var full := FullSlots(view);
    var at := seq(|full|, k requires 0 <= k < |full| => slots[full[k]]);
    forall j, k | 0 <= j < k < |at|
      ensures at[j] != at[k]
    {
      if at[j] == at[k] {
        SlotsApart(slots, hashes, full[j], full[k]);
      }
    }
    Pigeons(at, |hashes|);
    e := RoomLeft(view);
  }

  /** What a search answers: the number of the newest entry with the hash, or -1. */
  lemma Answer(slots: seq<nat>, hashes: seq<nat>, ids: seq<int>, log: seq<Entry>, hash: nat)
    requires Tracks(slots, hashes, ids, log) && |hashes| > 0
    ensures var view := ViewOf(slots, hashes);
            var r := Rest(view, hash);
            && (view[r] == Full(hash) || view[r] == Empty)
            && Lookup(log, hash) == if view[r] == Full(hash) then ids[slots[r]] else -1
  {
    var e := HasRoom(slots, hashes, ids, log);
    var view := ViewOf(slots, hashes);
    RestFinds(view, hash, e);
    var k := LastWith(log, hash);
    if k < |log| {
      var s :| 0 <= s < |slots| && SlotHas(slots, hashes, s, log[k].hash);
      assert view[s] == Full(hash);
    }
  }

  /** Writing such a position changes nothing that probing sees. */
  lemma ViewAdded(slots: seq<nat>, hashes: seq<nat>, ids: seq<int>, log: seq<Entry>, e: Entry)
    requires Tracks(slots, hashes, ids, log) && e.at < |hashes|
    requires Replaceable(log, e.at, e.hash)
    ensures ViewOf(slots, hashes[e.at := e.hash]) == ViewOf(slots, hashes)
  {
    var was, now := ViewOf(slots, hashes), ViewOf(slots, hashes[e.at := e.hash]);
    forall s | 0 <= s < |slots|
      ensures now[s] == was[s]
    {
      if slots[s] == e.at {
        assert Newest(slots, hashes, log, s);
        assert IsNewest(log, LastWith(log, hashes[e.at]));
      }
    }
  }

  lemma ViewSet(slots: seq<nat>, hashes: seq<nat>, r: nat, at: nat)
    requires r < |slots| && at < |hashes| && at != MAP_EMPTY
    ensures ViewOf(slots[r := at], hashes) == ViewOf(slots, hashes)[r := Full(hashes[at])]
  {
  }

  /** Before the slot is written, the loop has come to rest at the slot where the entry belongs. */
  ghost predicate Rests(slots: seq<nat>, hashes: seq<nat>, hash: nat, r: nat) {
    var view := ViewOf(slots, hashes);
    r < |view| && r == Rest(view, hash) && (view[r] == Empty || view[r] == Full(hash))
  }

  lemma StoredMore(hashes: seq<nat>, ids: seq<int>, log: seq<Entry>, e: Entry)
    requires Stored(hashes, ids, log) && e.at < |hashes| && Replaceable(log, e.at, e.hash)
    ensures Stored(hashes[e.at := e.hash], ids[e.at := e.id], log + [e])
  {
    var log' := log + [e];
    forall k | 0 <= k < |log'| && IsNewest(log', k)
      ensures log'[k].at < |hashes| && hashes[e.at := e.hash][log'[k].at] == log'[k].hash
      ensures ids[e.at := e.id][log'[k].at] == log'[k].id
    {
      LastWithAdded(log, e, log'[k].hash);
      if k < |log| {
        assert IsNewest(log, k);
      }
    }
  }

  lemma InsertStores(slots: seq<nat>, hashes: seq<nat>, ids: seq<int>, log: seq<Entry>, e: Entry, r: nat)
    requires Tracks(slots, hashes, ids, log) && e.at < |hashes|
    requires Replaceable(log, e.at, e.hash)
    requires Rests(slots, hashes, e.hash, r)
    ensures Tracks(slots[r := e.at], hashes[e.at := e.hash], ids[e.at := e.id], log + [e])
  {
    var slots', hashes', log' := slots[r := e.at], hashes[e.at := e.hash], log + [e];
    ViewKept(slots, hashes, ids, log, e, r);
    StoredMore(hashes, ids, log, e);
    forall s | 0 <= s < |slots'| && slots'[s] != MAP_EMPTY
      ensures Newest(slots', hashes', log', s)
    {
      SlotNewest(slots, hashes, ids, log, e, r, s);
    }
    forall k | 0 <= k < |log'|
      ensures HasSlot(slots', hashes', log'[k].hash)
    {
      EntryHasSlot(slots, hashes, ids, log, e, r, k);
    }
  }

  lemma ViewKept(slots: seq<nat>, hashes: seq<nat>, ids: seq<int>, log: seq<Entry>, e: Entry, r: nat)
    requires Tracks(slots, hashes, ids, log) && e.at < |hashes|
    requires Replaceable(log, e.at, e.hash)
    requires Rests(slots, hashes, e.hash, r)
    ensures Reachable(ViewOf(slots[r := e.at], hashes[e.at := e.hash]))
  {
    var view := ViewOf(slots, hashes);
    ViewAdded(slots, hashes, ids, log, e);
    ViewSet(slots, hashes[e.at := e.hash], r, e.at);
    if view[r] == Empty {
      FillKeeps(view, e.hash);
    } else {
      assert view[r := Full(e.hash)] == view;
    }
  }

  /** The slot points to the newest entry with its hash. */
  ghost predicate Newest(slots: seq<nat>, hashes: seq<nat>, log: seq<Entry>, s: nat)
    requires s < |slots|
  {
    && slots[s] < |hashes|
    && LastWith(log, hashes[slots[s]]) < |log| && log[LastWith(log, hashes[slots[s]])].at == slots[s]
  }

  lemma SlotNewest(slots: seq<nat>, hashes: seq<nat>, ids: seq<int>, log: seq<Entry>, e: Entry, r: nat, s: nat)
    requires Tracks(slots, hashes, ids, log) && e.at < |hashes|
    requires Replaceable(log, e.at, e.hash)
    requires Rests(slots, hashes, e.hash, r) && s < |slots| && slots[r := e.at][s] != MAP_EMPTY
    ensures Newest(slots[r := e.at], hashes[e.at := e.hash], log + [e], s)
  {
    if s == r {
      LastWithAdded(log, e, e.hash);
    } else {
      assert Newest(slots, hashes, log, s);
      SlotElsewhere(slots, hashes, e.hash, r, s);
      LastWithAdded(log, e, hashes[slots[s]]);
      if slots[s] == e.at {
        assert IsNewest(log, LastWith(log, hashes[e.at]));
      }
    }
  }

  lemma EntryHasSlot(slots: seq<nat>, hashes: seq<nat>, ids: seq<int>, log: seq<Entry>, e: Entry, r: nat, k: nat)
    requires Tracks(slots, hashes, ids, log) && e.at < |hashes|
    requires Replaceable(log, e.at, e.hash)
    requires Rests(slots, hashes, e.hash, r) && k <= |log|
    ensures HasSlot(slots[r := e.at], hashes[e.at := e.hash], (log + [e])[k].hash)
  {
    var slots', hashes' := slots[r := e.at], hashes[e.at := e.hash];
    if k == |log| {
      assert SlotHas(slots', hashes', r, e.hash);
    } else {
      var s :| 0 <= s < |slots| && SlotHas(slots, hashes, s, log[k].hash);
      assert ViewOf(slots, hashes)[s] == Full(log[k].hash);
      assert Newest(slots, hashes, log, s);
      assert s == r ==> log[k].hash == e.hash;
      if slots[s] == e.at {
        assert IsNewest(log, LastWith(log, hashes[e.at]));
      }
      assert SlotHas(slots', hashes', s, log[k].hash);
    }
  }

  /** Another slot in use has another hash. */
  lemma SlotElsewhere(slots: seq<nat>, hashes: seq<nat>, hash: nat, r: nat, s: nat)
    requires Reachable(ViewOf(slots, hashes)) && Rests(slots, hashes, hash, r)
    requires s < |slots| && s != r && slots[s] != MAP_EMPTY && slots[s] < |hashes|
    ensures hashes[slots[s]] != hash
  {
    var view := ViewOf(slots, hashes);
    assert view[s] == Full(hashes[slots[s]]);
    assert Rest(view, hashes[slots[s]]) == s;
  }

  /** Writing entry `e` into its table position and then its position into the slot where probing comes to
      rest keeps the index exactly when the position held no newest entry with another hash. */
  lemma InsertKeeps(slots: seq<nat>, hashes: seq<nat>, ids: seq<int>, log: seq<Entry>, e: Entry, r: nat)
    requires Tracks(slots, hashes, ids, log) && e.at < |hashes|
    requires Rests(slots, hashes[e.at := e.hash], e.hash, r)
    ensures Tracks(slots[r := e.at], hashes[e.at := e.hash], ids[e.at := e.id], log + [e])
            <==> Replaceable(log, e.at, e.hash)
  {
    if Replaceable(log, e.at, e.hash) {
      ViewAdded(slots, hashes, ids, log, e);
      InsertStores(slots, hashes, ids, log, e, r);
    } else {
      var k :| 0 <= k < |log| && IsNewest(log, k) && log[k].at == e.at && log[k].hash != e.hash;
      LastWithAdded(log, e, log[k].hash);
      assert IsNewest(log + [e], k) && (log + [e])[k] == log[k];
    }
  }

  lemma StillEmpty(slots: seq<nat>, hashes: seq<nat>, at: nat, hash: nat, e: nat)
    requires e < |slots| && at < |hashes| && ViewOf(slots, hashes)[e] == Empty
    ensures ViewOf(slots, hashes[at := hash])[e] == Empty
  {
  }

  /** Entry `k` is the newest with its hash, but no slot has that hash. */
  ghost predicate Lost(slots: seq<nat>, hashes: seq<nat>, log: seq<Entry>, k: nat) {
    k < |log| && Lookup(log, log[k].hash) == log[k].id && IsNewest(log, k) && !HasSlot(slots, hashes, log[k].hash)
  }

  /** Otherwise a name is lost. */
  lemma InsertLoses(slots: seq<nat>, hashes: seq<nat>, ids: seq<int>, log: seq<Entry>, e: Entry, r: nat)
    returns (k: nat)
    requires Tracks(slots, hashes, ids, log) && e.at < |hashes|
    requires Rests(slots, hashes[e.at := e.hash], e.hash, r) && !Replaceable(log, e.at, e.hash)
    ensures k < |log| && Lost(slots[r := e.at], hashes[e.at := e.hash], log + [e], k)
  {
    k :| 0 <= k < |log| && IsNewest(log, k) && log[k].at == e.at && log[k].hash != e.hash;
    LastWithAdded(log, e, log[k].hash);
    var slots', hashes' := slots[r := e.at], hashes[e.at := e.hash];
    forall s | 0 <= s < |slots'|
      ensures !SlotHas(slots', hashes', s, log[k].hash)
    {
      if s != r && slots[s] != MAP_EMPTY {
        assert Newest(slots, hashes, log, s);
      }
    }
  }

  // ---- The loops ----

  /** A loop that stands at `slot` will come to rest where probing from the home slot does. */
  ghost predicate Probing(view: seq<Cell>, hash: nat, slot: nat, fuel: nat, empty: nat) {
    && slot < |view| && empty < |view| && view[empty] == Empty
    && Probe(view, hash, slot, fuel) == Rest(view, hash) && fuel >= Distance(|view|, slot, empty)
  }

  lemma ProbingStarts(view: seq<Cell>, hash: nat, empty: nat)
    requires empty < |view| && view[empty] == Empty
    ensures Probing(view, hash, hash % |view|, |view|, empty)
  {
  }

  lemma ProbingMoves(view: seq<Cell>, hash: nat, slot: nat, fuel: nat, empty: nat)
    requires Probing(view, hash, slot, fuel, empty) && view[slot] != Empty && view[slot] != Full(hash)
    ensures fuel > 0 && Probing(view, hash, Following(|view|, slot), fuel - 1, empty)
  {
  }

  lemma ProbingRests(view: seq<Cell>, hash: nat, slot: nat, fuel: nat, empty: nat)
    requires Probing(view, hash, slot, fuel, empty) && (view[slot] == Empty || view[slot] == Full(hash))
    ensures slot == Rest(view, hash)
  {
  }

  // ---- The maps as code ----

  class NameMap {
    const slots: array<nat>
    const hashes: array<nat>
    const ids: array<int>
    ghost var log: seq<Entry>

    ghost predicate Valid()
      reads this, slots, hashes, ids
    {
      hashes.Length > 0 && hashes != slots && Tracks(slots[..], hashes[..], ids[..], log)
    }

    /** A table of `entries` entries and a map of `size` slots, all empty; `size` is POW2(2 * n) in the
        source, for a table of n entries or one less. */
    constructor (size: nat, entries: nat)
      requires 0 < entries <= MAP_EMPTY && 2 * entries <= size
      ensures Valid() && log == [] && hashes.Length == entries
      ensures fresh(slots) && fresh(hashes) && fresh(ids)
    {
      slots := new nat[size](_ => MAP_EMPTY);
      hashes := new nat[entries](_ => 0);
      ids := new int[entries](_ => 0);
      log := [];
    }

    method DoInsert(at: nat, ghost e: nat)
      requires at < hashes.Length <= MAP_EMPTY && hashes != slots && slots.Length > 0 && at != MAP_EMPTY
      requires forall s :: 0 <= s < slots.Length && slots[s] != MAP_EMPTY ==> slots[s] < hashes.Length
      requires e < slots.Length && ViewOf(slots[..], hashes[..])[e] == Empty
      modifies slots
      ensures var r := Rest(ViewOf(old(slots[..]), hashes[..]), hashes[at]);
              && Rests(old(slots[..]), hashes[..], hashes[at], r)
              && slots[..] == old(slots[..])[r := at]
    {
      var hash := hashes[at];
      var slot: nat := hash % slots.Length;
      ghost var view := ViewOf(slots[..], hashes[..]);
      ghost var fuel: nat := slots.Length;
      ProbingStarts(view, hash, e);
      while slots[slot] != MAP_EMPTY
        invariant Probing(view, hash, slot, fuel, e) && slots[..] == old(slots[..])
        decreases fuel
      {
        assert view[slot] == Full(hashes[slots[slot]]);
        if hashes[slots[slot]] == hash {
          break;
        }
        ProbingMoves(view, hash, slot, fuel, e);
        slot, fuel := Following(slots.Length, slot), fuel - 1;
      }
      ProbingRests(view, hash, slot, fuel, e);
      slots[slot] := at;
    }

    /** Writes a name's entry and its slot. The index stays valid exactly when the position held no newest
        entry with another hash; otherwise the name of such an entry is lost. */
    method Insert(name: seq<Byte>, id: int, at: nat)
      requires Valid() && at < hashes.Length
      modifies this, slots, hashes, ids
      ensures log == old(log) + [Entry(at, HashOf(name), id)]
      ensures hashes[..] == old(hashes[..])[at := HashOf(name)] && ids[..] == old(ids[..])[at := id]
      ensures slots[..] == old(slots[..])[Rest(ViewOf(old(slots[..]), hashes[..]), HashOf(name)) := at]
      ensures Valid() <==> Replaceable(old(log), at, HashOf(name))
      ensures !Valid() ==> exists k :: Lost(slots[..], hashes[..], log, k)
    {
      var hash := CliHash(name);
      ghost var e := HasRoom(slots[..], hashes[..], ids[..], log);
      ghost var s, h, i := slots[..], hashes[..], ids[..];
      ghost var entry := Entry(at, hash, id);
      hashes[at] := hash;
      ids[at] := id;
      assert hashes[..] == h[at := hash] && ids[..] == i[at := id];
      StillEmpty(s, h, at, hash, e);
      DoInsert(at, e);
      ghost var r := Rest(ViewOf(s, h[at := hash]), hash);
      InsertKeeps(s, h, i, log, entry, r);
      if !Replaceable(log, at, hash) {
        ghost var k := InsertLoses(s, h, i, log, entry, r);
      }
      log := log + [entry];
    }

    /** The number of the newest entry whose name has the token's hash, or -1. */
    method Find(name: seq<Byte>) returns (r: int)
      requires Valid()
      ensures r == Lookup(log, HashOf(name))
    {
      var hash := CliHash(name);
      Answer(slots[..], hashes[..], ids[..], log, hash);
      ghost var e := HasRoom(slots[..], hashes[..], ids[..], log);
      r := Search(hash, e);
    }

    method Search(hash: nat, ghost e: nat) returns (r: int)
      requires slots.Length > 0 && ids.Length == hashes.Length
      requires forall s :: 0 <= s < slots.Length && slots[s] != MAP_EMPTY ==> slots[s] < hashes.Length
      requires e < slots.Length && ViewOf(slots[..], hashes[..])[e] == Empty
      ensures var view := ViewOf(slots[..], hashes[..]);
              var s := Rest(view, hash);
              r == if view[s] == Full(hash) then ids[slots[s]] else -1
    {
      ghost var view := ViewOf(slots[..], hashes[..]);
      var slot: nat := hash % slots.Length;
      var start := slot;
      ghost var fuel: nat := slots.Length;
      ProbingStarts(view, hash, e);
      while slots[slot] != MAP_EMPTY
        invariant Probing(view, hash, slot, fuel, e)
        invariant fuel + Distance(slots.Length, start, slot) == slots.Length
        invariant slot != start ==> start != e
        decreases fuel
      {
        assert view[slot] == Full(hashes[slots[slot]]);
        if hashes[slots[slot]] == hash {
          ProbingRests(view, hash, slot, fuel, e);
          return ids[slots[slot]];
        }
        ProbingMoves(view, hash, slot, fuel, e);
        slot, fuel := Following(slots.Length, slot), fuel - 1;
        if slot == start {
          assert false;
          break;
        }
      }
      ProbingRests(view, hash, slot, fuel, e);
      r := -1;
    }
  }

  datatype NameType = Domain | Entity | LogLevel | OtherType

  function Footprint(m: NameMap): set<object> {
    {m, m.slots, m.hashes, m.ids}
  }

  class NameTables {
    const domains: NameMap
    const entities: NameMap
    const levels: NameMap

    ghost predicate Valid()
      reads Footprint(domains), Footprint(entities), Footprint(levels)
    {
      && Footprint(domains) !! Footprint(entities) !! Footprint(levels)
      && domains.Valid() && entities.Valid() && levels.Valid()
    }

    constructor (d: NameMap, e: NameMap, l: NameMap)
      requires d.Valid() && e.Valid() && l.Valid() && Footprint(d) !! Footprint(e) !! Footprint(l)
      ensures Valid() && domains == d && entities == e && levels == l
    {
      domains, entities, levels := d, e, l;
    }

    /** The history of the map for a kind of name. */
    ghost function Log(kind: NameType): seq<Entry>
      reads domains, entities, levels
    {
      match kind
      case Domain => domains.log
      case Entity => entities.log
      case LogLevel => levels.log
      case OtherType => []
    }

    function Table(kind: NameType): NameMap
      requires !kind.OtherType?
    {
      match kind
      case Domain => domains
      case Entity => entities
      case LogLevel => levels
    }

    method InsertDomain(name: seq<Byte>, id: int, n: nat)
      requires Valid() && n < domains.hashes.Length
      modifies Footprint(domains)
      ensures domains.log == old(domains.log) + [Entry(n, HashOf(name), id)]
      ensures Valid() <==> Replaceable(old(domains.log), n, HashOf(name))
    {
      assert entities.Valid() && levels.Valid();
      domains.Insert(name, id, n);
      assert entities.Valid() && levels.Valid();
    }

    method InsertEntity(name: seq<Byte>, id: int, n: nat)
      requires Valid() && n < entities.hashes.Length
      modifies Footprint(entities)
      ensures entities.log == old(entities.log) + [Entry(n, HashOf(name), id)]
      ensures Valid() <==> Replaceable(old(entities.log), n, HashOf(name))
    {
      assert domains.Valid() && levels.Valid();
      entities.Insert(name, id, n);
      assert domains.Valid() && levels.Valid();
    }

    method InsertLevel(name: seq<Byte>, id: int, n: nat)
      requires Valid() && n < levels.hashes.Length
      modifies Footprint(levels)
      ensures levels.log == old(levels.log) + [Entry(n, HashOf(name), id)]
      ensures Valid() <==> Replaceable(old(levels.log), n, HashOf(name))
    {
      assert domains.Valid() && entities.Valid();
      levels.Insert(name, id, n);
      assert domains.Valid() && entities.Valid();
    }

    /** Enters a name at position `n` of its table, unless the kind is none of the three. The tables stay valid
        exactly when that position held no newest entry with another hash. */
    method InsertName(name: seq<Byte>, id: int, kind: NameType, n: nat) returns (ok: bool)
      requires Valid()
      requires kind.OtherType? || n < Table(kind).hashes.Length
      modifies if kind.OtherType? then {} else Footprint(Table(kind))
      ensures ok == !kind.OtherType?
      ensures Valid() <==> !ok || Replaceable(old(Log(kind)), n, HashOf(name))
      ensures ok ==> Log(kind) == old(Log(kind)) + [Entry(n, HashOf(name), id)]
    {
      match kind {
        case Domain => InsertDomain(name, id, n);
        case Entity => InsertEntity(name, id, n);
        case LogLevel => InsertLevel(name, id, n);
        case OtherType => return false;
      }
      ok := true;
    }

    method FindNameId(name: seq<Byte>, kind: NameType) returns (r: int)
      requires Valid()
      ensures r == Lookup(Log(kind), HashOf(name))
    {
      match kind {
        case Domain => r := domains.Find(name);
        case Entity => r := entities.Find(name);
        case LogLevel => r := levels.Find(name);
        case OtherType => r := -1;
      }
    }
  }
}
