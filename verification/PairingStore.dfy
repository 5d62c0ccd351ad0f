/** Pairing codes in Redis: a code and its metadata per serial, and per restaurant
    the set of its serials, each key with its own expiry; and the commands that
    pairing_repo.go sends, alone or in pipelines. */
module PairingStore {
  // bcrypt, as far as comparing goes: equal hashes are hashes of equal codes.
  datatype Hash = Hashed(code: string)

  datatype Meta = Meta(deviceId: string, deviceType: string, rest: string, expiresAt: int)
  datatype Entry = Entry(serial: string, hash: Hash, meta: Meta)

  datatype Expiry = Never | At(t: int)
  datatype Cell<T> = Cell(value: T, expiry: Expiry)

  // Keys whose time is up stay in the maps and count as absent.
  datatype Store = Store(codes: map<string, Cell<Hash>>, metas: map<string, Cell<Meta>>, sets: map<string, Cell<set<string>>>)

  const EMPTY := Store(map[], map[], map[])

  predicate Alive(e: Expiry, now: int) { e.Never? || now < e.t }

  predicate NoLater(a: Expiry, b: Expiry) { b.Never? || (a.At? && a.t <= b.t) }

  predicate Live<T>(cells: map<string, Cell<T>>, key: string, now: int) {
    key in cells && Alive(cells[key].expiry, now)
  }

  /** What SET with this ttl comes to: the client library sends no expiry for a ttl
      that is not positive. */
  function ExpiryOf(now: int, ttl: int): Expiry {
    if 0 < ttl then At(now + ttl) else Never
  }

  // ---------------------------------------------------------------------
  // Redis commands
  // ---------------------------------------------------------------------

  datatype Key = CodeKey(serial: string) | MetaKey(serial: string)

  datatype Cmd =
    | SetCodeKey(serial: string, hash: Hash, ttl: int)
    | SetMetaKey(serial: string, meta: Meta, ttl: int)
    | SAdd(rest: string, serials: seq<string>)
    | Expire(rest: string, ttl: int) // deletes the key if the ttl is not positive
    | DelSet(rest: string)
    | SRem(rest: string, serial: string)
    | Del(keys: seq<Key>)

  /** SMEMBERS */
  function Members(s: Store, now: int, rest: string): set<string> {
    if Live(s.sets, rest, now) then s.sets[rest].value else {}
  }

  function SetOf(xs: seq<string>): set<string> {
    set x | x in xs
  }

  function CodeKeys(keys: seq<Key>): set<string> {
    set k | k in keys && k.CodeKey? :: k.serial
  }

  function MetaKeys(keys: seq<Key>): set<string> {
    set k | k in keys && k.MetaKey? :: k.serial
  }

  function Do(s: Store, now: int, c: Cmd): Store {
    match c
    case SetCodeKey(serial, hash, ttl) => s.(codes := s.codes[serial := Cell(hash, ExpiryOf(now, ttl))])
    case SetMetaKey(serial, meta, ttl) => s.(metas := s.metas[serial := Cell(meta, ExpiryOf(now, ttl))])
    case SAdd(rest, serials) =>
      var expiry := if Live(s.sets, rest, now) then s.sets[rest].expiry else Never;
      s.(sets := s.sets[rest := Cell(Members(s, now, rest) + SetOf(serials), expiry)])
    case Expire(rest, ttl) =>
      if !Live(s.sets, rest, now) then s
      else if ttl <= 0 then s.(sets := s.sets - {rest})
      else s.(sets := s.sets[rest := s.sets[rest].(expiry := At(now + ttl))])
    case DelSet(rest) => s.(sets := s.sets - {rest})
    case SRem(rest, serial) => Unlisted(s, now, rest, serial)
    case Del(keys) => s.(codes := s.codes - CodeKeys(keys), metas := s.metas - MetaKeys(keys))
  }

  /** A pipeline: its commands in order, at one instant. */
  function DoAll(s: Store, now: int, cmds: seq<Cmd>): Store {
    if cmds == [] then s else Do(DoAll(s, now, cmds[..|cmds| - 1]), now, cmds[|cmds| - 1])
  }

  // ---------------------------------------------------------------------
  // What the commands and pipelines come to
  // ---------------------------------------------------------------------

  /** The pipeline of SetCode. */
  function Put(s: Store, now: int, e: Entry, expiry: int): Store {
    Store(s.codes[e.serial := Cell(e.hash, At(expiry))], s.metas[e.serial := Cell(e.meta, At(expiry))],
          s.sets[e.meta.rest := Cell(Members(s, now, e.meta.rest) + {e.serial}, At(expiry))])
  }

  /** SREM */
  function Unlisted(s: Store, now: int, rest: string, serial: string): Store {
    if Live(s.sets, rest, now) then s.(sets := s.sets[rest := s.sets[rest].(value := s.sets[rest].value - {serial})]) else s
  }

  /** DEL of some serials' codes and metadata. */
  function Dropped(s: Store, serials: set<string>): Store {
    Store(s.codes - serials, s.metas - serials, s.sets)
  }

  function Serials(entries: seq<Entry>): set<string> {
    set e | e in entries :: e.serial
  }

  /** The last entry of a batch for a serial. */
  function Last(entries: seq<Entry>, x: string): (e: Entry)
    requires x in Serials(entries)
    ensures e in entries && e.serial == x
  {
    var n := |entries| - 1;
    if entries[n].serial == x then entries[n]
    else
      assert entries == entries[..n] + [entries[n]];
      Last(entries[..n], x)
  }

  function CodesOf(entries: seq<Entry>, expiry: Expiry): map<string, Cell<Hash>> {
    map x | x in Serials(entries) :: Cell(Last(entries, x).hash, expiry)
  }

  function MetasOf(entries: seq<Entry>, expiry: Expiry): map<string, Cell<Meta>> {
    map x | x in Serials(entries) :: Cell(Last(entries, x).meta, expiry)
  }

  /** The pipeline of ReplaceRestaurantCodes: with a ttl that is not positive the
      codes never expire and the set is gone. */
  function Batch(s: Store, rest: string, entries: seq<Entry>, expiry: Expiry): Store {
    Store(s.codes + CodesOf(entries, expiry), s.metas + MetasOf(entries, expiry),
          if entries == [] || expiry.Never? then s.sets - {rest} else s.sets[rest := Cell(Serials(entries), expiry)])
  }

  /** No entry after the last one has its serial. */
  lemma {:induction false} LastEntryWins(entries: seq<Entry>, x: string) returns (k: nat)
    requires x in Serials(entries)
    ensures k < |entries| && entries[k] == Last(entries, x) && entries[k].serial == x
    ensures forall j :: k < j < |entries| ==> entries[j].serial != x
  {
    var n := |entries| - 1;
    if entries[n].serial == x {
      k := n;
    } else {
      assert entries == entries[..n] + [entries[n]];
      k := LastEntryWins(entries[..n], x);
      assert forall j :: k < j < n ==> entries[..n][j] == entries[j];
    }
  }

  // ---------------------------------------------------------------------
  // Pipelines
  // ---------------------------------------------------------------------

  lemma DoneOneMore(s: Store, now: int, cmds: seq<Cmd>, c: Cmd)
    ensures DoAll(s, now, cmds + [c]) == Do(DoAll(s, now, cmds), now, c)
  {
  }

  lemma DoneTwoMore(s: Store, now: int, cmds: seq<Cmd>, c: Cmd, c': Cmd)
    ensures DoAll(s, now, cmds + [c, c']) == Do(Do(DoAll(s, now, cmds), now, c), now, c')
  {
    var longer := cmds + [c];
    DoneOneMore(s, now, longer, c');
    assert cmds + [c, c'] == longer + [c'];
    DoneOneMore(s, now, cmds, c);
  }

  function SetPipeline(e: Entry, ttl: int): seq<Cmd> {
    [SetCodeKey(e.serial, e.hash, ttl), SetMetaKey(e.serial, e.meta, ttl), SAdd(e.meta.rest, [e.serial]), Expire(e.meta.rest, ttl)]
  }

  lemma SetPipelineDoes(s: Store, now: int, e: Entry, ttl: int)
    requires 0 < ttl
    ensures DoAll(s, now, SetPipeline(e, ttl)) == Put(s, now, e, now + ttl)
  {
    var p := SetPipeline(e, ttl);
    DoneTwoMore(s, now, [], p[0], p[1]);
    DoneTwoMore(s, now, [] + [p[0], p[1]], p[2], p[3]);
    assert p == [] + [p[0], p[1]] + [p[2], p[3]];
    assert SetOf([e.serial]) == {e.serial};
  }

  /** The commands that write a batch's codes. */
  function WritesOf(entries: seq<Entry>, ttl: int): seq<Cmd> {
    if entries == [] then []
    else
      var e := entries[|entries| - 1];
      WritesOf(entries[..|entries| - 1], ttl) + [SetCodeKey(e.serial, e.hash, ttl), SetMetaKey(e.serial, e.meta, ttl)]
  }

  /** A store with a batch's codes on top. */
  function With(s: Store, entries: seq<Entry>, expiry: Expiry): Store {
    Store(s.codes + CodesOf(entries, expiry), s.metas + MetasOf(entries, expiry), s.sets)
  }

  lemma {:induction false} WritesDo(s: Store, now: int, entries: seq<Entry>, ttl: int, expiry: Expiry)
    requires expiry == ExpiryOf(now, ttl)
    ensures DoAll(s, now, WritesOf(entries, ttl)) == With(s, entries, expiry)
  {
    if entries == [] {
      WithNone(s, expiry);
    } else {
      var n := |entries| - 1;
      WritesDo(s, now, entries[..n], ttl, expiry);
      WritesOneMore(s, now, WritesOf(entries[..n], ttl), entries[..n], entries[n], ttl, expiry);
      assert entries == entries[..n] + [entries[n]];
    }
  }

  lemma WritesOneMore(s: Store, now: int, writes: seq<Cmd>, init: seq<Entry>, e: Entry, ttl: int, expiry: Expiry)
    requires expiry == ExpiryOf(now, ttl) && DoAll(s, now, writes) == With(s, init, expiry)
    ensures DoAll(s, now, writes + [SetCodeKey(e.serial, e.hash, ttl), SetMetaKey(e.serial, e.meta, ttl)]) ==
            With(s, init + [e], expiry)
  {
    TwoWritesMore(s, now, writes, With(s, init, expiry), e, ttl, expiry);
    WithOneMore(s, init, e, expiry);
  }

  lemma TwoWritesMore(s: Store, now: int, writes: seq<Cmd>, done: Store, e: Entry, ttl: int, expiry: Expiry)
    requires expiry == ExpiryOf(now, ttl) && DoAll(s, now, writes) == done
    ensures DoAll(s, now, writes + [SetCodeKey(e.serial, e.hash, ttl), SetMetaKey(e.serial, e.meta, ttl)]) ==
            done.(codes := done.codes[e.serial := Cell(e.hash, expiry)], metas := done.metas[e.serial := Cell(e.meta, expiry)])
  {
    DoneTwoMore(s, now, writes, SetCodeKey(e.serial, e.hash, ttl), SetMetaKey(e.serial, e.meta, ttl));
  }

  lemma WithNone(s: Store, expiry: Expiry)
    ensures With(s, [], expiry) == s
  {
    assert s.codes + map[] == s.codes && s.metas + map[] == s.metas;
    assert CodesOf([], expiry) == map[] && MetasOf([], expiry) == map[];
  }

  lemma WithOneMore(s: Store, init: seq<Entry>, e: Entry, expiry: Expiry)
    ensures var s' := With(s, init, expiry);
            With(s, init + [e], expiry) ==
            s'.(codes := s'.codes[e.serial := Cell(e.hash, expiry)], metas := s'.metas[e.serial := Cell(e.meta, expiry)])
  {
    OneEntryMore(init, e, expiry);
    AddUpdate(s.codes, CodesOf(init, expiry), e.serial, Cell(e.hash, expiry));
    AddUpdate(s.metas, MetasOf(init, expiry), e.serial, Cell(e.meta, expiry));
  }

  lemma AddUpdate<K, V>(a: map<K, V>, b: map<K, V>, k: K, v: V)
    ensures a + b[k := v] == (a + b)[k := v]
  {
  }

  lemma LastOneMore(init: seq<Entry>, e: Entry, x: string)
    ensures Serials(init + [e]) == Serials(init) + {e.serial}
    ensures x in Serials(init + [e]) ==> Last(init + [e], x) == if x == e.serial then e else Last(init, x)
  {
    assert (init + [e])[..|init|] == init;
  }

  lemma OneEntryMore(init: seq<Entry>, e: Entry, expiry: Expiry)
    ensures CodesOf(init + [e], expiry) == CodesOf(init, expiry)[e.serial := Cell(e.hash, expiry)]
    ensures MetasOf(init + [e], expiry) == MetasOf(init, expiry)[e.serial := Cell(e.meta, expiry)]
  {
    var all, codes, metas := init + [e], CodesOf(init, expiry)[e.serial := Cell(e.hash, expiry)], MetasOf(init, expiry)[e.serial := Cell(e.meta, expiry)];
    LastOneMore(init, e, e.serial);
    assert CodesOf(all, expiry).Keys == codes.Keys && MetasOf(all, expiry).Keys == metas.Keys;
    forall x | x in Serials(all) ensures CodesOf(all, expiry)[x] == codes[x] && MetasOf(all, expiry)[x] == metas[x] {
      LastOneMore(init, e, x);
    }
  }

  function Names(entries: seq<Entry>): seq<string> {
    seq(|entries|, k requires 0 <= k < |entries| => entries[k].serial)
  }

  lemma NamesAreSerials(entries: seq<Entry>)
    ensures SetOf(Names(entries)) == Serials(entries)
  {
    forall x | x in Serials(entries) ensures x in Names(entries) {
      var e :| e in entries && e.serial == x;
      var k :| 0 <= k < |entries| && entries[k] == e;
      assert Names(entries)[k] == x;
    }
  }

  /** The whole pipeline of a replacement. */
  function BatchPipeline(rest: string, entries: seq<Entry>, ttl: int): seq<Cmd> {
    WritesOf(entries, ttl) + [DelSet(rest)] + if entries == [] then [] else [SAdd(rest, Names(entries)), Expire(rest, ttl)]
  }

  lemma BatchPipelineDoes(s: Store, now: int, rest: string, entries: seq<Entry>, ttl: int, expiry: Expiry)
    requires expiry == ExpiryOf(now, ttl)
    ensures DoAll(s, now, BatchPipeline(rest, entries, ttl)) == Batch(s, rest, entries, expiry)
  {
    var writes, s' := WritesOf(entries, ttl), With(s, entries, expiry);
    WritesDo(s, now, entries, ttl, expiry);
    DoneOneMore(s, now, writes, DelSet(rest));
    if entries == [] {
      assert BatchPipeline(rest, entries, ttl) == writes + [DelSet(rest)];
    } else {
      NamesAreSerials(entries);
      SetPutBack(s', now, writes + [DelSet(rest)], s, rest, Names(entries), ttl, expiry);
    }
  }

  /** The SADD and EXPIRE that end the pipeline. */
  lemma SetPutBack(done: Store, now: int, cmds: seq<Cmd>, s: Store, rest: string, serials: seq<string>, ttl: int, expiry: Expiry)
    requires expiry == ExpiryOf(now, ttl) && DoAll(s, now, cmds) == done.(sets := done.sets - {rest})
    ensures DoAll(s, now, cmds + [SAdd(rest, serials), Expire(rest, ttl)]) ==
            done.(sets := if ttl <= 0 then done.sets - {rest} else done.sets[rest := Cell(SetOf(serials), expiry)])
  {
    DoneTwoMore(s, now, cmds, SAdd(rest, serials), Expire(rest, ttl));
    NewSet(done.(sets := done.sets - {rest}), now, rest, serials, ttl, expiry);
    assert (done.sets - {rest})[rest := Cell(SetOf(serials), expiry)] == done.sets[rest := Cell(SetOf(serials), expiry)];
  }

  lemma NewSet(s: Store, now: int, rest: string, serials: seq<string>, ttl: int, expiry: Expiry)
    requires rest !in s.sets && expiry == ExpiryOf(now, ttl)
    ensures Do(Do(s, now, SAdd(rest, serials)), now, Expire(rest, ttl)) ==
            s.(sets := if ttl <= 0 then s.sets else s.sets[rest := Cell(SetOf(serials), expiry)])
  {
    assert {} + SetOf(serials) == SetOf(serials);
    assert s.sets[rest := Cell(SetOf(serials), Never)] - {rest} == s.sets;
  }

  function KeysOf(serials: seq<string>): seq<Key> {
    if serials == [] then []
    else KeysOf(serials[..|serials| - 1]) + [CodeKey(serials[|serials| - 1]), MetaKey(serials[|serials| - 1])]
  }

  lemma {:induction false} KeysCover(serials: seq<string>)
    ensures forall x :: CodeKey(x) in KeysOf(serials) <==> x in serials
    ensures forall x :: MetaKey(x) in KeysOf(serials) <==> x in serials
  {
    if serials != [] { KeysCover(serials[..|serials| - 1]); }
  }

  lemma DelDoes(s: Store, now: int, serials: seq<string>)
    ensures Do(s, now, Del(KeysOf(serials))) == Dropped(s, SetOf(serials))
  {
    KeysCover(serials);
    var keys := KeysOf(serials);
    assert forall k :: k in keys && k.CodeKey? ==> CodeKey(k.serial) == k;
    assert forall k :: k in keys && k.MetaKey? ==> MetaKey(k.serial) == k;
    assert CodeKeys(keys) == SetOf(serials);
    assert MetaKeys(keys) == SetOf(serials);
  }
}
