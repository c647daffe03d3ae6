/** The address table over whole records: whatever the input, it is the log of the inline addresses read so far. */
module WartsTable {
  import Seqs
  import opened Common
  import opened WartsWire
  import opened WartsFlags
  import opened WartsAddress
  import opened WartsFields
  import F = WartsFrame
  import R = WartsRecords

  function AddAll(refs: Refs, log: seq<Address>): Refs
    decreases |log|
  {
    if log == [] then refs else AddAll(refs.Add(log[0]), log[1..])
  }

  /** A read that added the addresses of `log`, at least a byte of input for each, and nothing else. */
  predicate Logged(st: State, log: seq<Address>, st': State) {
    st'.refs == AddAll(st.refs, log) && |log| + |st'.rest| <= |st.rest|
  }

  lemma {:induction false} AddAllConcat(refs: Refs, a: seq<Address>, b: seq<Address>)
    ensures AddAll(refs, a + b) == AddAll(AddAll(refs, a), b)
    decreases |a|
  {
    if a == [] {
      assert a + b == b;
    } else {
      assert (a + b)[1..] == a[1..] + b;
      AddAllConcat(refs.Add(a[0]), a[1..], b);
    }
  }

  lemma LoggedThen(st: State, a: seq<Address>, st1: State, b: seq<Address>, st2: State)
    requires Logged(st, a, st1) && Logged(st1, b, st2)
    ensures Logged(st, a + b, st2)
  {
    AddAllConcat(st.refs, a, b);
  }

  lemma NothingLogged(st: State, st': State)
    requires st'.refs == st.refs && |st'.rest| <= |st.rest|
    ensures Logged(st, [], st')
  {
  }

  // ---------- what each read adds ----------

  function AddressLog(st: State): seq<Address> {
    if ReadsInline(st) then [ReadAddress(st).value.0] else []
  }

  function ManyLog<T>(read: State -> Res<(T, State)>, log: State -> seq<Address>, n: nat, st: State): seq<Address> {
    if n == 0 || read(st).Err? then [] else log(st) + ManyLog(read, log, n - 1, read(st).value.1)
  }

  /** The state behind the count byte of an address list. */
  function BehindCount(st: State): (nat, State) {
    if ReadUint8(st.rest).Ok? then (ReadUint8(st.rest).value.0 as nat, st.(rest := ReadUint8(st.rest).value.1)) else (0, st)
  }

  /** The state behind the two counts and the timestamps of a timestamp option. */
  function BehindTimes(st: State): (nat, State) {
    var (times, st1) := BehindCount(st);
    var (n, st2) := BehindCount(st1);
    if ReadUint32s(times, [], st2.rest).Ok? then (n, st2.(rest := ReadUint32s(times, [], st2.rest).value.1)) else (0, st2)
  }

  function ValueLog(k: Kind, st: State): seq<Address> {
    match k
    case Addr => AddressLog(st)
    case AddrList => InlineLog(BehindCount(st).0, BehindCount(st).1)
    case Stamps => InlineLog(BehindTimes(st).0, BehindTimes(st).1)
    case _ => []
  }

  function FieldsLog(t: Table, flags: seq<nat>, fields: Fields, st: State): seq<Address>
    decreases |flags|
  {
    if flags == [] || t(flags[0]).None? || ReadValue(t(flags[0]).value, fields, st).Err? then []
    else
      var k := t(flags[0]).value;
      var (v, st1) := ReadValue(k, fields, st).value;
      ValueLog(k, st) + FieldsLog(t, flags[1..], fields[flags[0] := v], st1)
  }

  function StructLog(t: Table, st: State): seq<Address> {
    if ReadFront(st.rest).Err? then []
    else
      var (flags, s1) := ReadFront(st.rest).value;
      FieldsLog(t, flags, map[], st.(rest := s1))
  }

  function StructsLog(t: Table, n: nat, st: State): seq<Address> {
    ManyLog((st': State) => ReadStruct(t, st'), (st': State) => StructLog(t, st'), n, st)
  }

  /** The inline addresses of the counted structures behind the flags of a record. */
  function ItemsLog(flags: Res<(Struct, State)>, t: Table): seq<Address> {
    if flags.Err? || ReadUint16(flags.value.1.rest).Err? then []
    else
      var (count, s2) := ReadUint16(flags.value.1.rest).value;
      StructsLog(t, count, flags.value.1.(rest := s2))
  }

  function PingLog(s: Bytes): seq<Address> {
    StructLog(PingFields, State(s, NEW_REFS)) + ItemsLog(ReadStruct(PingFields, State(s, NEW_REFS)), PingReplyFields)
  }

  function TracerouteLog(s: Bytes): seq<Address> {
    StructLog(TracerouteFields, State(s, NEW_REFS)) + ItemsLog(R.ReadTracerouteFlags(State(s, NEW_REFS)), HopFields)
  }

  // ---------- every read adds its log ----------

  lemma AddressLogged(st: State)
    requires ReadAddress(st).Ok?
    ensures Logged(st, AddressLog(st), ReadAddress(st).value.1)
  {
    var a := ReadAddress(st).value.0;
    assert AddAll(st.refs.Add(a), [a][1..]) == st.refs.Add(a);
  }

  lemma {:induction false} ManyLogged<T(!new)>(read: State -> Res<(T, State)>, log: State -> seq<Address>, n: nat, acc: seq<T>, st: State)
    requires forall s :: read(s).Ok? ==> Logged(s, log(s), read(s).value.1)
    requires ReadMany(read, n, acc, st).Ok?
    ensures Logged(st, ManyLog(read, log, n, st), ReadMany(read, n, acc, st).value.1)
    decreases n
  {
    if n == 0 {
      NothingLogged(st, st);
    } else {
      var (x, st1) := read(st).value;
      ManyLogged(read, log, n - 1, acc + [x], st1);
      LoggedThen(st, log(st), st1, ManyLog(read, log, n - 1, st1), ReadMany(read, n, acc, st).value.1);
    }
  }

  lemma {:induction false} AddressesLogged(n: nat, acc: seq<Address>, st: State)
    requires ReadMany(ReadAddress, n, acc, st).Ok?
    ensures Logged(st, InlineLog(n, st), ReadMany(ReadAddress, n, acc, st).value.1)
    decreases n
  {
    if n == 0 {
      NothingLogged(st, st);
    } else {
      var (a, st1) := ReadAddress(st).value;
      AddressLogged(st);
      AddressesLogged(n - 1, acc + [a], st1);
      LoggedThen(st, AddressLog(st), st1, InlineLog(n - 1, st1), ReadMany(ReadAddress, n, acc, st).value.1);
      Seqs.NoneLeft(InlineLog(n - 1, st1));
    }
  }

  lemma AddrListLogged(fields: Fields, st: State)
    requires ReadValue(AddrList, fields, st).Ok?
    ensures Logged(st, ValueLog(AddrList, st), ReadValue(AddrList, fields, st).value.1)
  {
    var (n, st1) := BehindCount(st);
    AddressesLogged(n, [], st1);
  }

  lemma StampsLogged(st: State)
    requires ReadStamps(st).Ok?
    ensures Logged(st, ValueLog(Stamps, st), ReadStamps(st).value.1)
  {
    var (times, st1) := BehindCount(st);
    var (n, st2) := BehindCount(st1);
    F.Uint32sFrame(times, [], st2.rest, []);
    AddressesLogged(BehindTimes(st).0, [], BehindTimes(st).1);
  }

  lemma ValueLogged(k: Kind, fields: Fields, st: State)
    requires ReadValue(k, fields, st).Ok?
    ensures Logged(st, ValueLog(k, st), ReadValue(k, fields, st).value.1)
  {
    match k
    case Addr => AddressLogged(st);
    case AddrList => AddrListLogged(fields, st);
    case Stamps => StampsLogged(st);
    case _ =>
      F.ValueFrame(k, fields, st, []);
      NothingLogged(st, ReadValue(k, fields, st).value.1);
  }

  lemma {:induction false} FieldsLogged(t: Table, flags: seq<nat>, fields: Fields, st: State)
    requires ReadFields(t, flags, fields, st).Ok?
    ensures Logged(st, FieldsLog(t, flags, fields, st), ReadFields(t, flags, fields, st).value.1)
    decreases |flags|
  {
    if flags == [] {
      NothingLogged(st, st);
    } else {
      var k := t(flags[0]).value;
      var (v, st1) := ReadValue(k, fields, st).value;
      ValueLogged(k, fields, st);
      FieldsLogged(t, flags[1..], fields[flags[0] := v], st1);
      LoggedThen(st, ValueLog(k, st), st1, FieldsLog(t, flags[1..], fields[flags[0] := v], st1),
                 ReadFields(t, flags, fields, st).value.1);
    }
  }

  lemma StructLogged(t: Table, st: State)
    requires ReadStruct(t, st).Ok?
    ensures Logged(st, StructLog(t, st), ReadStruct(t, st).value.1)
  {
    F.FrontFrame(st.rest, []);
    var (flags, s1) := ReadFront(st.rest).value;
    FieldsLogged(t, flags, map[], st.(rest := s1));
  }

  lemma StructsLogged(t: Table, n: nat, st: State)
    requires ReadStructs(t, n, st).Ok?
    ensures Logged(st, StructsLog(t, n, st), ReadStructs(t, n, st).value.1)
  {
    forall s | ReadStruct(t, s).Ok? ensures Logged(s, StructLog(t, s), ReadStruct(t, s).value.1) {
      StructLogged(t, s);
    }
    ManyLogged((st': State) => ReadStruct(t, st'), (st': State) => StructLog(t, st'), n, [], st);
  }

  lemma ItemsLogged(flags: Res<(Struct, State)>, t: Table)
    requires R.ReadItems(flags, t).Ok?
    ensures Logged(flags.value.1, ItemsLog(flags, t), R.ReadItems(flags, t).value.1)
  {
    var st1 := flags.value.1;
    var (count, s2) := ReadUint16(st1.rest).value;
    StructsLogged(t, count, st1.(rest := s2));
  }

  // ---------- ids ----------

  /** From an empty table the ids are the positions in the log. */
  lemma {:induction false} AddAllIsLog(refs: Refs, done: seq<Address>, log: seq<Address>)
    requires IsLog(refs, done) && |done| + |log| <= 0x1_0000_0000
    ensures IsLog(AddAll(refs, log), done + log)
    decreases |log|
  {
    if log == [] {
      assert done + log == done;
    } else {
      assert IsLog(refs.Add(log[0]), done + [log[0]]);
      AddAllIsLog(refs.Add(log[0]), done + [log[0]], log[1..]);
      Seqs.Shift(done, log);
    }
  }

  lemma FromEmpty(s: Bytes, log: seq<Address>, st: State)
    requires Logged(State(s, NEW_REFS), log, st) && |s| <= 0x1_0000_0000
    ensures IsLog(st.refs, log)
  {
    AddAllIsLog(NEW_REFS, [], log);
    Seqs.NoneLeft(log);
  }

  /** What a reference finds in a table that is a log. */
  lemma ReferenceIs(refs: Refs, log: seq<Address>, id: uint32)
    requires IsLog(refs, log)
    ensures refs.Get(id) == if id < |log| then log[id] else NO_ADDRESS
  {
  }

  /** On any input of at most 2^32 bytes: after a ping with its replies the table holds exactly the inline addresses
      met, in order, under the ids 0, 1, 2, ... */
  lemma PingTableIsLog(s: Bytes)
    requires |s| <= 0x1_0000_0000
    requires R.ReadItems(ReadStruct(PingFields, State(s, NEW_REFS)), PingReplyFields).Ok?
    ensures IsLog(R.ReadItems(ReadStruct(PingFields, State(s, NEW_REFS)), PingReplyFields).value.1.refs, PingLog(s))
  {
    var st := State(s, NEW_REFS);
    var flags := ReadStruct(PingFields, st);
    var st2 := R.ReadItems(flags, PingReplyFields).value.1;
    StructLogged(PingFields, st);
    ItemsLogged(flags, PingReplyFields);
    LoggedThen(st, StructLog(PingFields, st), flags.value.1, ItemsLog(flags, PingReplyFields), st2);
    FromEmpty(s, PingLog(s), st2);
  }

  /** The same for a traceroute with its hops. */
  lemma TracerouteTableIsLog(s: Bytes)
    requires |s| <= 0x1_0000_0000
    requires R.ReadItems(R.ReadTracerouteFlags(State(s, NEW_REFS)), HopFields).Ok?
    ensures IsLog(R.ReadItems(R.ReadTracerouteFlags(State(s, NEW_REFS)), HopFields).value.1.refs, TracerouteLog(s))
  {
    var st := State(s, NEW_REFS);
    var flags := R.ReadTracerouteFlags(st);
    var st2 := R.ReadItems(flags, HopFields).value.1;
    if s == [] {
      NothingLogged(st, flags.value.1);
    } else {
      StructLogged(TracerouteFields, st);
    }
    ItemsLogged(flags, HopFields);
    LoggedThen(st, StructLog(TracerouteFields, st), flags.value.1, ItemsLog(flags, HopFields), st2);
    FromEmpty(s, TracerouteLog(s), st2);
  }
}
