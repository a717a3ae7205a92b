/** The incremental source map of `core/ec/queries.cpp`: each update reply merges the fields it
    carries into the sources it lists and drops every source it does not list. */
module Sources {
  import opened Outcomes
  import opened Bytes
  import opened Tags
  import opened Framing

  // Tag names of core/ec/codes.h
  const CLIENT_NAME: u16 := 0x0100
  const CLIENT: u16 := 0x0600
  const DOWNLOAD_TOTAL: u16 := 0x060B
  const DOWNLOAD_STATE: u16 := 0x060C
  const DOWN_SPEED: u16 := 0x060E
  const FROM: u16 := 0x060F
  const USER_IP: u16 := 0x0610
  const USER_PORT: u16 := 0x0611
  const SOFT_VER_STR: u16 := 0x0615
  const REQUEST_FILE: u16 := 0x0620
  const REMOTE_FILENAME: u16 := 0x0627
  const AVAILABLE_PARTS: u16 := 0x062A

  /** A transfer rate, from an integer tag or from the decimal text of a double tag. */
  datatype Speed = Whole(v: u64) | Decimal(digits: seq<byte>)

  datatype SourceClient = SourceClient(
    id: u32, fileEcid: u32, name: seq<byte>, softVer: seq<byte>, userIp: u32, userPort: u16,
    downSpeed: Speed, downloaded: u64, downState: u64, origin: u64, availParts: u64, remoteName: seq<byte>)

  type SourceTable = map<u32, SourceClient>

  function Fresh(id: u32): SourceClient {
    SourceClient(id, 0, [], [], 0, 0, Whole(0), 0, 0, 0, 0, [])
  }

  // ---------------------------------------------------------------- What an entry says

  function EntryId(entry: Tag): Option<u32> {
    if entry.AsInt().Some? then Some(entry.AsInt().value % TWO32) else None
  }

  function Narrow(v: Option<u64>, modulus: nat): (r: Option<nat>)
    requires modulus > 0
    ensures r.Some? ==> r.value < modulus
  {
    if v.Some? then Some(v.value % modulus) else None
  }

  function NameIn(e: Tag): Option<seq<byte>> { e.ChildString(CLIENT_NAME) }
  function SoftVerIn(e: Tag): Option<seq<byte>> { e.ChildString(SOFT_VER_STR) }
  function RemoteNameIn(e: Tag): Option<seq<byte>> { e.ChildString(REMOTE_FILENAME) }
  function FileIn(e: Tag): Option<u32> { Narrow(e.ChildInt(REQUEST_FILE), TWO32) }
  function IpIn(e: Tag): Option<u32> { Narrow(e.ChildInt(USER_IP), TWO32) }
  function PortIn(e: Tag): Option<u16> { Narrow(e.ChildInt(USER_PORT), TWO16) }
  function TotalIn(e: Tag): Option<u64> { e.ChildInt(DOWNLOAD_TOTAL) }
  function StateIn(e: Tag): Option<u64> { e.ChildInt(DOWNLOAD_STATE) }
  function OriginIn(e: Tag): Option<u64> { e.ChildInt(FROM) }
  function PartsIn(e: Tag): Option<u64> { e.ChildInt(AVAILABLE_PARTS) }
  function SpeedIn(e: Tag): Option<Speed> {
    var t := e.Child(DOWN_SPEED);
    if t.None? then None
    else match t.value.value
      case Double(digits) => Some(Decimal(digits))
      case Int(v) => Some(Whole(v))
      case _ => None
  }

  /** The value an entry sends last in a list of entries, or `d` when none sends one. */
  function Latest<T>(entries: seq<Tag>, sent: Tag -> Option<T>, d: T): T {
    if entries == [] then d
    else
      var last := sent(entries[|entries| - 1]);
      if last.Some? then last.value else Latest(entries[..|entries| - 1], sent, d)
  }

  /** A source known only through these entries: each field has the latest value sent for it. */
  function FromEntries(id: u32, es: seq<Tag>): SourceClient {
    SourceClient(id, Latest(es, FileIn, 0), Latest(es, NameIn, []), Latest(es, SoftVerIn, []),
                 Latest(es, IpIn, 0), Latest(es, PortIn, 0), Latest(es, SpeedIn, Whole(0)),
                 Latest(es, TotalIn, 0), Latest(es, StateIn, 0), Latest(es, OriginIn, 0),
                 Latest(es, PartsIn, 0), Latest(es, RemoteNameIn, []))
  }

  // ---------------------------------------------------------------- One reply

  function Merged(c: SourceClient, e: Tag): SourceClient {
    SourceClient(c.id, FileIn(e).GetOr(c.fileEcid), NameIn(e).GetOr(c.name), SoftVerIn(e).GetOr(c.softVer),
                 IpIn(e).GetOr(c.userIp), PortIn(e).GetOr(c.userPort), SpeedIn(e).GetOr(c.downSpeed),
                 TotalIn(e).GetOr(c.downloaded), StateIn(e).GetOr(c.downState), OriginIn(e).GetOr(c.origin),
                 PartsIn(e).GetOr(c.availParts), RemoteNameIn(e).GetOr(c.remoteName))
  }

  function MergeAll(c: SourceClient, es: seq<Tag>): SourceClient {
    if es == [] then c else Merged(MergeAll(c, es[..|es| - 1]), es[|es| - 1])
  }

  function EntriesFor(es: seq<Tag>, id: u32): seq<Tag> {
    if es == [] then []
    else EntriesFor(es[..|es| - 1], id) + if EntryId(es[|es| - 1]) == Some(id) then [es[|es| - 1]] else []
  }

  function Ids(es: seq<Tag>): set<u32> {
    set e | e in es && EntryId(e).Some? :: EntryId(e).value
  }

  function Known(table: SourceTable, id: u32): SourceClient {
    if id in table then table[id].(id := id) else Fresh(id)
  }

  /** The table after a reply that lists `es`. */
  function Listed(table: SourceTable, es: seq<Tag>): SourceTable {
    map id | id in Ids(es) :: MergeAll(Known(table, id), EntriesFor(es, id))
  }

  /** The entries of a reply's client container, if it has one. */
  function Listing(reply: Packet): Option<seq<Tag>> {
    var container := FirstNamed(reply.tags, CLIENT);
    if container.Some? then Some(container.value.children) else None
  }

  function Updated(table: SourceTable, reply: Packet): SourceTable {
    var es := Listing(reply);
    if es.Some? then Listed(table, es.value) else table
  }

  /** An entry with an integer value lists the low 32 bits of that value. */
  ghost predicate ListsId(es: seq<Tag>, id: u32) {
    exists e :: e in es && e.value.Int? && e.value.v % 0x1_0000_0000 == id
  }

  /** A reply without a tag of code 0x0600 changes nothing; after any other, the sources known are those
      listed by the children of the first such tag. */
  lemma {:induction false} UpdatedIds(table: SourceTable, reply: Packet, i: nat)
    requires i <= |reply.tags| && forall j :: 0 <= j < i ==> reply.tags[j].name != 0x0600
    requires i < |reply.tags| ==> reply.tags[i].name == 0x0600
    ensures i == |reply.tags| ==> Updated(table, reply) == table
    ensures i < |reply.tags| ==> forall id :: id in Updated(table, reply) <==> ListsId(reply.tags[i].children, id)
  {
    hide MergeAll, EntriesFor, FirstNamed;
    if i < |reply.tags| {
      FirstAt(reply.tags, i);
    } else {
      NoneNamed(reply.tags);
    }
  }

  lemma NoneNamed(ts: seq<Tag>)
    requires forall j :: 0 <= j < |ts| ==> ts[j].name != CLIENT
    ensures FirstNamed(ts, CLIENT).None?
  {
  }

  /** `out` is the entries of `es` at the increasing positions `picked`. */
  ghost predicate Picks(out: seq<Tag>, es: seq<Tag>, picked: seq<nat>) {
    && |picked| == |out|
    && (forall k :: 0 <= k < |picked| ==> picked[k] < |es| && out[k] == es[picked[k]])
    && (forall k, l :: 0 <= k < l < |picked| ==> picked[k] < picked[l])
  }

  lemma PickOneMore(out: seq<Tag>, es: seq<Tag>, picked: seq<nat>, e: Tag)
    requires Picks(out, es, picked)
    ensures Picks(out, es + [e], picked) && Picks(out + [e], es + [e], picked + [|es|])
    ensures |es| !in picked
  {
  }

  /** The entries merged into a source are all those that list its id, in order and each once. */
  lemma {:induction false} EntriesPicked(es: seq<Tag>, id: u32) returns (picked: seq<nat>)
    ensures Picks(EntriesFor(es, id), es, picked)
    ensures forall i: nat :: i < |es| ==> (i in picked <==> es[i].value.Int? && es[i].value.v % 0x1_0000_0000 == id)
  {
    hide Picks;
    picked := [];
    if es == [] {
      NothingPicked();
    } else {
      var n := |es| - 1;
      picked := EntriesPicked(es[..n], id);
      PickOneMore(EntriesFor(es[..n], id), es[..n], picked, es[n]);
      assert es[..n] + [es[n]] == es && EntriesFor(es[..n], id) + [] == EntriesFor(es[..n], id);
      assert forall i: nat :: i < n ==> es[..n][i] == es[i];
      if EntryId(es[n]) == Some(id) {
        picked := picked + [n];
      }
    }
  }

  lemma NothingPicked()
    ensures Picks([], [], [])
  {
  }

  // ---------------------------------------------------------------- What merging does to a field

  /** Child `i` is the first with this tag code. */
  ghost predicate FirstWith(e: Tag, code: u16, i: nat) {
    i < |e.children| && e.children[i].name == code && forall j :: 0 <= j < i ==> e.children[j].name != code
  }

  /** The first child with the code sets the field if it is text, else the field stays. */
  ghost predicate TextFrom(e: Tag, code: u16, before: seq<byte>, after: seq<byte>) {
    && (forall i: nat :: FirstWith(e, code, i) && e.children[i].value.Str? ==> after == e.children[i].value.text)
    && ((forall i: nat :: FirstWith(e, code, i) ==> !e.children[i].value.Str?) ==> after == before)
  }

  /** The first child with the code sets the field, narrowed, if it is an integer, else the field stays. */
  ghost predicate NumberFrom(e: Tag, code: u16, modulus: nat, before: nat, after: nat)
    requires modulus > 0
  {
    && (forall i: nat :: FirstWith(e, code, i) && e.children[i].value.Int? ==> after == e.children[i].value.v % modulus)
    && ((forall i: nat :: FirstWith(e, code, i) ==> !e.children[i].value.Int?) ==> after == before)
  }

  /** A speed is set by an integer or by a double. */
  ghost predicate SpeedFrom(e: Tag, code: u16, before: Speed, after: Speed) {
    && (forall i: nat :: FirstWith(e, code, i) && e.children[i].value.Int? ==> after == Whole(e.children[i].value.v))
    && (forall i: nat :: FirstWith(e, code, i) && e.children[i].value.Double? ==> after == Decimal(e.children[i].value.digits))
    && ((forall i: nat :: FirstWith(e, code, i) ==> !e.children[i].value.Int? && !e.children[i].value.Double?) ==> after == before)
  }

  ghost predicate FieldsFrom(e: Tag, before: SourceClient, after: SourceClient) {
    && after.id == before.id
    && TextFrom(e, 0x0100, before.name, after.name)
    && TextFrom(e, 0x0615, before.softVer, after.softVer)
    && TextFrom(e, 0x0627, before.remoteName, after.remoteName)
    && NumberFrom(e, 0x0620, 0x1_0000_0000, before.fileEcid, after.fileEcid)
    && NumberFrom(e, 0x0610, 0x1_0000_0000, before.userIp, after.userIp)
    && NumberFrom(e, 0x0611, 0x1_0000, before.userPort, after.userPort)
    && NumberFrom(e, 0x060B, 0x1_0000_0000_0000_0000, before.downloaded, after.downloaded)
    && NumberFrom(e, 0x060C, 0x1_0000_0000_0000_0000, before.downState, after.downState)
    && NumberFrom(e, 0x060F, 0x1_0000_0000_0000_0000, before.origin, after.origin)
    && NumberFrom(e, 0x062A, 0x1_0000_0000_0000_0000, before.availParts, after.availParts)
    && SpeedFrom(e, 0x060E, before.downSpeed, after.downSpeed)
  }

  lemma ChildIsFirst(e: Tag, code: u16)
    ensures e.Child(code).Some? ==> exists i: nat :: FirstWith(e, code, i) && e.Child(code) == Some(e.children[i])
    ensures forall i: nat :: FirstWith(e, code, i) ==> e.Child(code) == Some(e.children[i])
  {
    if e.Child(code).Some? {
      var i :| 0 <= i < |e.children| && e.Child(code) == Some(e.children[i]) && e.children[i].name == code
               && forall j :: 0 <= j < i ==> e.children[j].name != code;
      assert FirstWith(e, code, i);
    }
    forall i: nat | FirstWith(e, code, i) ensures e.Child(code) == Some(e.children[i]) {
      FirstIsUnique(e, code, i);
    }
  }

  lemma FirstIsUnique(e: Tag, code: u16, i: nat)
    requires FirstWith(e, code, i)
    ensures FirstNamed(e.children, code) == Some(e.children[i])
  {
  }

  lemma TextMerges(e: Tag, code: u16, before: seq<byte>)
    ensures TextFrom(e, code, before, e.ChildString(code).GetOr(before))
  {
    hide Tag.Child, FirstWith;
    ChildIsFirst(e, code);
  }

  lemma NumberMerges(e: Tag, code: u16, modulus: nat, before: nat)
    requires modulus > 0
    ensures NumberFrom(e, code, modulus, before, Narrow(e.ChildInt(code), modulus).GetOr(before))
  {
    hide Tag.Child, FirstWith;
    ChildIsFirst(e, code);
  }

  lemma WideNumberMerges(e: Tag, code: u16, before: u64)
    ensures NumberFrom(e, code, 0x1_0000_0000_0000_0000, before, e.ChildInt(code).GetOr(before))
  {
    hide Tag.Child, FirstWith;
    ChildIsFirst(e, code);
  }

  lemma SpeedMerges(e: Tag, before: Speed)
    ensures SpeedFrom(e, 0x060E, before, SpeedIn(e).GetOr(before))
  {
    hide Tag.Child, FirstWith;
    ChildIsFirst(e, 0x060E);
  }

  /** Which tag goes into which field: for each of the eleven fields, the first child with the field's
      code sets it if its value is of the right kind, and otherwise the field stays as it was. */
  lemma {:induction false} FieldsMerge(c: SourceClient, e: Tag)
    ensures FieldsFrom(e, c, Merged(c, e))
  {
    hide TextFrom, NumberFrom, SpeedFrom, Tag.ChildString, Tag.ChildInt, SpeedIn, Narrow;
    TextMerges(e, 0x0100, c.name);
    TextMerges(e, 0x0615, c.softVer);
    TextMerges(e, 0x0627, c.remoteName);
    NumberMerges(e, 0x0620, TWO32, c.fileEcid);
    NumberMerges(e, 0x0610, TWO32, c.userIp);
    NumberMerges(e, 0x0611, TWO16, c.userPort);
    WideNumberMerges(e, 0x060B, c.downloaded);
    WideNumberMerges(e, 0x060C, c.downState);
    WideNumberMerges(e, 0x060F, c.origin);
    WideNumberMerges(e, 0x062A, c.availParts);
    SpeedMerges(e, c.downSpeed);
  }

  /** `mergeClient`: the fields present in the entry are assigned, the others kept. */
  method MergeClient(client: SourceClient, entry: Tag) returns (c: SourceClient)
    ensures c == Merged(client, entry)
    ensures FieldsFrom(entry, client, c)
  {
    FieldsMerge(client, entry);
    hide FieldsFrom, Tag.Child;
    c := client;
    c := c.(name := entry.ChildString(CLIENT_NAME).GetOr(c.name));
    c := c.(softVer := entry.ChildString(SOFT_VER_STR).GetOr(c.softVer));
    c := c.(remoteName := entry.ChildString(REMOTE_FILENAME).GetOr(c.remoteName));
    c := c.(fileEcid := Narrow(entry.ChildInt(REQUEST_FILE), TWO32).GetOr(c.fileEcid));
    c := c.(userIp := Narrow(entry.ChildInt(USER_IP), TWO32).GetOr(c.userIp));
    c := c.(userPort := Narrow(entry.ChildInt(USER_PORT), TWO16).GetOr(c.userPort));
    c := c.(downloaded := entry.ChildInt(DOWNLOAD_TOTAL).GetOr(c.downloaded));
    c := c.(downState := entry.ChildInt(DOWNLOAD_STATE).GetOr(c.downState));
    c := c.(origin := entry.ChildInt(FROM).GetOr(c.origin));
    c := c.(availParts := entry.ChildInt(AVAILABLE_PARTS).GetOr(c.availParts));
    var speed := entry.Child(DOWN_SPEED);
    if speed.Some? {
      if speed.value.value.Double? {
        c := c.(downSpeed := Decimal(speed.value.value.digits));
      } else if speed.value.AsInt().Some? {
        c := c.(downSpeed := Whole(speed.value.AsInt().value));
      }
    }
  }

  class SourceMap {
    var clients: SourceTable

    constructor ()
      ensures clients == map[]
    {
      clients := map[];
    }

    /** A failed exchange leaves the map alone; a reply updates it in place. */
    method FetchClientUpdate(reply: Reply) returns (r: Result<(), ErrorKind>)
      modifies this
      ensures reply.Failure? ==> r == Failure(reply.error) && clients == old(clients)
      ensures reply.Success? ==> r == Success(()) && clients == Updated(old(clients), reply.value)
    {
      hide Listed;
      var resp :- reply;
      for i := 0 to |resp.tags|
        invariant clients == old(clients)
        invariant forall j :: 0 <= j < i ==> resp.tags[j].name != CLIENT
      {
        if resp.tags[i].name == CLIENT {
          FirstAt(resp.tags, i);
          MergeListing(resp.tags[i].children);
          return Success(());
        }
      }
      r := Success(());
    }

    method MergeListing(entries: seq<Tag>)
      modifies this
      ensures clients == Listed(old(clients), entries)
    {
      hide Merged, Partly, Listed;
      var alive: set<u32> := {};
      ghost var before := clients;
      PartlyStart(before);
      for i := 0 to |entries|
        invariant Partly(before, clients, alive, entries[..i])
      {
        var entry := entries[i];
        assert entries[..i + 1] == entries[..i] + [entry];
        PartlyStep(before, clients, alive, entries[..i], entry);
        var id := EntryId(entry);
        if id.Some? {
          alive := alive + {id.value};
          var c := Known(clients, id.value);
          c := MergeClient(c, entry);
          clients := clients[id.value := c];
        }
      }
      assert entries[..|entries|] == entries;
      PartlyDone(before, clients, alive, entries);
      clients := map k | k in clients && k in alive :: clients[k];
    }
  }

  /** `table` is `before` with the entries `es` merged in and nothing erased yet. */
  ghost predicate Partly(before: SourceTable, table: SourceTable, alive: set<u32>, es: seq<Tag>) {
    && alive == Ids(es)
    && table.Keys == before.Keys + alive
    && forall k :: k in table ==>
      table[k] == if k in alive then MergeAll(Known(before, k), EntriesFor(es, k)) else before[k]
  }

  lemma PartlyStart(before: SourceTable)
    ensures Partly(before, before, {}, [])
  {
  }

  lemma PartlyStep(before: SourceTable, table: SourceTable, alive: set<u32>, es: seq<Tag>, e: Tag)
    requires Partly(before, table, alive, es)
    ensures
      var id := EntryId(e);
      if id.None? then Partly(before, table, alive, es + [e])
      else Partly(before, table[id.value := Merged(Known(table, id.value), e)], alive + {id.value}, es + [e])
  {
    hide Merged, MergeAll, EntriesFor, EntryId;
    var id := EntryId(e);
    IdsAppend(es, e);
    forall k: u32
      ensures MergeAll(Known(before, k), EntriesFor(es + [e], k))
              == if id == Some(k) then Merged(MergeAll(Known(before, k), EntriesFor(es, k)), e)
                 else MergeAll(Known(before, k), EntriesFor(es, k))
    {
      EntriesAppend(Known(before, k), es, e, k);
    }
    if id.Some? {
      NotListed(es, id.value);
      MergeAllKeepsId(Known(before, id.value), EntriesFor(es, id.value));
      NoEntries(Known(before, id.value));
    }
  }

  lemma PartlyDone(before: SourceTable, table: SourceTable, alive: set<u32>, es: seq<Tag>)
    requires Partly(before, table, alive, es)
    ensures (map k | k in table && k in alive :: table[k]) == Listed(before, es)
  {
    hide MergeAll, EntriesFor;
  }

  lemma NoEntries(c: SourceClient)
    ensures MergeAll(c, []) == c
  {
  }

  lemma IdsAppend(es: seq<Tag>, e: Tag)
    ensures Ids(es + [e]) == Ids(es) + if EntryId(e).Some? then {EntryId(e).value} else {}
  {
    hide EntryId;
    assert (es + [e])[|es|] == e;
    assert forall x :: x in es ==> x in es + [e];
  }

  lemma EntriesAppend(c: SourceClient, es: seq<Tag>, e: Tag, k: u32)
    ensures EntriesFor(es + [e], k) == EntriesFor(es, k) + if EntryId(e) == Some(k) then [e] else []
    ensures MergeAll(c, EntriesFor(es + [e], k))
            == if EntryId(e) == Some(k) then Merged(MergeAll(c, EntriesFor(es, k)), e) else MergeAll(c, EntriesFor(es, k))
  {
    hide Merged, EntryId;
    assert (es + [e])[..|es + [e]| - 1] == es;
    var mine := EntriesFor(es, k);
    assert mine + [] == mine && (mine + [e])[..|mine + [e]| - 1] == mine;
  }

  lemma FirstAt(ts: seq<Tag>, i: nat)
    requires i < |ts| && ts[i].name == CLIENT
    requires forall j :: 0 <= j < i ==> ts[j].name != CLIENT
    ensures FirstNamed(ts, CLIENT) == Some(ts[i])
  {
  }

  lemma {:induction false} NotListed(es: seq<Tag>, id: u32)
    ensures id !in Ids(es) ==> EntriesFor(es, id) == []
  {
    if es != [] {
      NotListed(es[..|es| - 1], id);
      assert es[|es| - 1] in es;
    }
  }

  lemma {:induction false} MergeAllKeepsId(c: SourceClient, es: seq<Tag>)
    ensures MergeAll(c, es).id == c.id
  {
    if es != [] { MergeAllKeepsId(c, es[..|es| - 1]); }
  }

  // ---------------------------------------------------------------- Runs of replies

  /** The table after a run of replies, starting empty. */
  function TableAfter(replies: seq<Packet>): SourceTable {
    if replies == [] then map[]
    else Updated(TableAfter(replies[..|replies| - 1]), replies[|replies| - 1])
  }

  /** The entries sent for a source since its current unbroken stretch of listings began;
      replies without a client container do not count. */
  function Stretch(replies: seq<Packet>, id: u32): seq<Tag> {
    if replies == [] then []
    else
      var earlier, es := replies[..|replies| - 1], Listing(replies[|replies| - 1]);
      if es.None? then Stretch(earlier, id)
      else if id !in Ids(es.value) then []
      else Stretch(earlier, id) + EntriesFor(es.value, id)
  }

  /** The ids in the last listing of the run. */
  function LastIds(replies: seq<Packet>): set<u32> {
    if replies == [] then {}
    else
      var es := Listing(replies[|replies| - 1]);
      if es.Some? then Ids(es.value) else LastIds(replies[..|replies| - 1])
  }

  lemma {:induction false} MergeAllAppend(c: SourceClient, a: seq<Tag>, b: seq<Tag>)
    ensures MergeAll(c, a + b) == MergeAll(MergeAll(c, a), b)
  {
    hide Merged;
    if b == [] {
      assert a + b == a;
    } else {
      assert (a + b)[..|a + b| - 1] == a + b[..|b| - 1];
      MergeAllAppend(c, a, b[..|b| - 1]);
    }
  }

  lemma {:induction false} MergeAllIsLatest(id: u32, es: seq<Tag>)
    ensures MergeAll(Fresh(id), es) == FromEntries(id, es)
  {
    hide Tag.Child, Narrow;
    if es != [] {
      MergeAllIsLatest(id, es[..|es| - 1]);
    }
  }

  /** After any run of update replies, the sources known are exactly those of the last listing, and
      each one is what its current unbroken stretch of listings says, field by field. */
  lemma {:induction false} TableIsHistory(replies: seq<Packet>)
    ensures TableAfter(replies).Keys == LastIds(replies)
    ensures forall id :: id in TableAfter(replies) ==> TableAfter(replies)[id] == FromEntries(id, Stretch(replies, id))
    ensures forall id: u32 :: id !in TableAfter(replies) ==> Stretch(replies, id) == []
  {
    hide FromEntries, EntriesFor, MergeAll;
    if replies != [] {
      var earlier := replies[..|replies| - 1];
      TableIsHistory(earlier);
      var table, es := TableAfter(earlier), Listing(replies[|replies| - 1]);
      if es.Some? {
        forall id | id in Ids(es.value)
          ensures TableAfter(replies)[id] == FromEntries(id, Stretch(replies, id))
        {
          var mine := EntriesFor(es.value, id);
          MergeAllIsLatest(id, Stretch(earlier, id));
          MergeAllAppend(Fresh(id), Stretch(earlier, id), mine);
          MergeAllIsLatest(id, Stretch(replies, id));
          KnownIsHistory(earlier, id);
        }
      }
    }
  }

  lemma KnownIsHistory(replies: seq<Packet>, id: u32)
    requires id in TableAfter(replies) ==> TableAfter(replies)[id] == FromEntries(id, Stretch(replies, id))
    requires id !in TableAfter(replies) ==> Stretch(replies, id) == []
    ensures Known(TableAfter(replies), id) == FromEntries(id, Stretch(replies, id))
  {
  }
}
