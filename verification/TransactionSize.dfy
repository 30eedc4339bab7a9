/** The keeper's transaction-size estimate against the wire format it estimates. */
module TransactionSize {
  import opened Wrappers

  type Byte = x: int | 0 <= x < 256

  /** A 32-byte public key. */
  type Key = k: seq<Byte> | |k| == 32 witness seq(32, _ => 0)

  datatype Meta = Meta(key: Key, signer: bool)

  datatype Instruction = Instruction(program: Key, keys: seq<Meta>, data: seq<Byte>)

  // --------------------------------------------------------------------- compact u16

  /** `getSizeOfCompressedU16` */
  function CompactSize(n: nat): (r: nat)
  {
    1 + (if n >= 128 then 1 else 0) + (if n >= 16384 then 1 else 0)
  }

  /** The wire encoding: seven bits a byte, low bits first, high bit set while more follows. */
  function Compact(n: nat): (r: seq<Byte>)
  {
    if n < 128 then [n] else [n % 128 + 128] + Compact(n / 128)
  }

  /** Reads one compact integer; `None` when the input ends inside it. */
  function ReadCompact(bytes: seq<Byte>): (r: Option<(nat, seq<Byte>)>)
  {
    if bytes == [] then None
    else if bytes[0] < 128 then Some((bytes[0], bytes[1..]))
    else
      match ReadCompact(bytes[1..])
      case None => None
      case Some((high, rest)) => Some((bytes[0] - 128 + 128 * high, rest))
  }

  /** What is written is read back, whatever follows it. */
  lemma {:induction false} CompactRoundTrip(n: nat, rest: seq<Byte>)
    ensures ReadCompact(Compact(n) + rest) == Some((n, rest))
  {
    var bytes := Compact(n) + rest;
    if n < 128 {
      assert bytes[1..] == rest;
    } else {
      assert bytes[1..] == Compact(n / 128) + rest;
      CompactRoundTrip(n / 128, rest);
    }
  }

  /** The estimate is the encoded length for every 16-bit value, and for no value that needs
  a fourth byte. */
  lemma {:induction false} CompactSizeIsLength(n: nat)
    ensures CompactSize(n) == |Compact(n)| <==> n < 2_097_152
  {
    if n >= 128 {
      assert Compact(n) == [n % 128 + 128] + Compact(n / 128);
      var m := n / 128;
      if m >= 128 {
        assert Compact(m) == [m % 128 + 128] + Compact(m / 128);
        var h := m / 128;
        if h >= 128 {
          assert Compact(h) == [h % 128 + 128] + Compact(h / 128);
        }
      }
    }
  }

  // ------------------------------------------------------------------------ accounts

  function KeysOf(ms: seq<Meta>): (r: set<Key>)
  {
    if ms == [] then {} else {ms[0].key} + KeysOf(ms[1..])
  }

  function SignersOf(ms: seq<Meta>): (r: set<Key>)
    ensures r <= KeysOf(ms)
  {
    if ms == [] then {} else (if ms[0].signer then {ms[0].key} else {}) + SignersOf(ms[1..])
  }

  function Programs(ixs: seq<Instruction>): (r: set<Key>)
  {
    if ixs == [] then {} else {ixs[0].program} + Programs(ixs[1..])
  }

  function Signers(ixs: seq<Instruction>): (r: set<Key>)
  {
    if ixs == [] then {} else SignersOf(ixs[0].keys) + Signers(ixs[1..])
  }

  function Accounts(ixs: seq<Instruction>): (r: set<Key>)
    ensures Programs(ixs) <= r && Signers(ixs) <= r
  {
    if ixs == [] then {} else {ixs[0].program} + KeysOf(ixs[0].keys) + Accounts(ixs[1..])
  }

  function TableKeys(tables: seq<set<Key>>): (r: set<Key>)
  {
    if tables == [] then {} else tables[0] + TableKeys(tables[1..])
  }

  /** Accounts that must be listed in the message itself. */
  function Static(ixs: seq<Instruction>, tables: seq<set<Key>>): (r: set<Key>)
  {
    (Accounts(ixs) - TableKeys(tables)) + Programs(ixs) + Signers(ixs)
  }

  // ------------------------------------------------------------------------ estimate

  function InstructionSize(ix: Instruction): (r: nat)
  {
    1 + CompactSize(|ix.keys|) + |ix.keys| + CompactSize(|ix.data|) + |ix.data|
  }

  function InstructionSizes(ixs: seq<Instruction>): (r: nat)
  {
    if ixs == [] then 0 else InstructionSize(ixs[0]) + InstructionSizes(ixs[1..])
  }

  /** `getSizeOfTransaction`: bytes and distinct accounts. */
  function Estimate(ixs: seq<Instruction>, versioned: bool, tables: seq<set<Key>>): (r: (nat, nat))
  {
    var total := |Accounts(ixs)|;
    var listed := if tables == [] then Accounts(ixs) else Static(ixs, tables);
    assert listed <= Accounts(ixs);
    SubsetSize(listed, Accounts(ixs));
    var lookups := total - |listed|;
    (CompactSize(|Signers(ixs)|) + |Signers(ixs)| * 64
     + 3
     + CompactSize(|listed|) + 32 * |listed|
     + 32
     + CompactSize(|ixs|) + InstructionSizes(ixs)
     + (if versioned then 1 + CompactSize(0) else 0)
     + (if versioned then 32 * |tables| else 0)
     + (if versioned && |tables| > 0 then 2 else 0)
     + lookups,
     total)
  }

  lemma {:induction false} SubsetSize<T>(a: set<T>, b: set<T>)
    requires a <= b
    ensures |a| <= |b| && |b - a| == |b| - |a|
  {
    assert b == a + (b - a);
  }

  /** The code: three sets filled in one pass, then rebuilt against the tables. */
  method SizeOfTransaction(ixs: seq<Instruction>, versioned: bool, tables: seq<set<Key>>) returns (r: (nat, nat))
    ensures r == Estimate(ixs, versioned, tables)
  {
    hide Programs, Signers, Accounts, InstructionSizes, TableKeys, CompactSize;
    var programs, signers, accounts, sizes := Collect(ixs);
    var total := |accounts|;
    var lookups := 0;
    if |tables| > 0 {
      accounts := accounts - TableKeys(tables);
      accounts := accounts + programs + signers;
      SubsetSize(accounts, Accounts(ixs));
      lookups := total - |accounts|;
    }
    var bytes := CompactSize(|signers|) + |signers| * 64
                 + 3
                 + CompactSize(|accounts|) + 32 * |accounts|
                 + 32
                 + CompactSize(|ixs|) + sizes
                 + (if versioned then 1 + CompactSize(0) else 0)
                 + (if versioned then 32 * |tables| else 0)
                 + (if versioned && |tables| > 0 then 2 else 0)
                 + lookups;
    return (bytes, total);
  }

  method Collect(ixs: seq<Instruction>) returns (programs: set<Key>, signers: set<Key>, accounts: set<Key>, sizes: nat)
    ensures programs == Programs(ixs) && signers == Signers(ixs) && accounts == Accounts(ixs)
    ensures sizes == InstructionSizes(ixs)
  {
    hide SignersOf, KeysOf, InstructionSize;
    programs, signers, accounts, sizes := {}, {}, {}, 0;
    var i := 0;
    assert ixs[0..] == ixs;
    while i < |ixs|
      invariant 0 <= i <= |ixs|
      invariant Programs(ixs) == programs + Programs(ixs[i..])
      invariant Signers(ixs) == signers + Signers(ixs[i..])
      invariant Accounts(ixs) == accounts + Accounts(ixs[i..])
      invariant InstructionSizes(ixs) == sizes + InstructionSizes(ixs[i..])
    {
      var ix := ixs[i];
      assert ixs[i..][1..] == ixs[i + 1..];
      var s, k := CollectKeys(ix.keys);
      programs := programs + {ix.program};
      accounts := accounts + {ix.program} + k;
      signers := signers + s;
      sizes := sizes + InstructionSize(ix);
      i := i + 1;
    }
    assert ixs[i..] == [];
  }

  method CollectKeys(ms: seq<Meta>) returns (signers: set<Key>, keys: set<Key>)
    ensures signers == SignersOf(ms) && keys == KeysOf(ms)
  {
    signers, keys := {}, {};
    var i := 0;
    assert ms[0..] == ms;
    while i < |ms|
      invariant 0 <= i <= |ms|
      invariant SignersOf(ms) == signers + SignersOf(ms[i..])
      invariant KeysOf(ms) == keys + KeysOf(ms[i..])
    {
      assert ms[i..][1..] == ms[i + 1..];
      if ms[i].signer {
        signers := signers + {ms[i].key};
      }
      keys := keys + {ms[i].key};
      i := i + 1;
    }
    assert ms[i..] == [];
  }

  // ---------------------------------------------------------------------- wire format

  /** Position of a key in the account list, as one byte. */
  function IndexByte(order: seq<Key>, k: Key): (r: Byte)
  {
    if order == [] || order[0] == k then 0 else (1 + IndexByte(order[1..], k)) % 256
  }

  function KeyIndices(order: seq<Key>, ms: seq<Meta>): (r: seq<Byte>)
    ensures |r| == |ms|
  {
    if ms == [] then [] else [IndexByte(order, ms[0].key)] + KeyIndices(order, ms[1..])
  }

  function WriteInstruction(order: seq<Key>, ix: Instruction): (r: seq<Byte>)
  {
    [IndexByte(order, ix.program)] + Compact(|ix.keys|) + KeyIndices(order, ix.keys) + Compact(|ix.data|) + ix.data
  }

  function WriteInstructions(order: seq<Key>, ixs: seq<Instruction>): (r: seq<Byte>)
  {
    if ixs == [] then [] else WriteInstruction(order, ixs[0]) + WriteInstructions(order, ixs[1..])
  }

  function WriteKeys(order: seq<Key>): (r: seq<Byte>)
    ensures |r| == 32 * |order|
  {
    if order == [] then [] else order[0] + WriteKeys(order[1..])
  }

  /** Header (three counts), account list, recent blockhash, instructions. */
  function WriteMessage(order: seq<Key>, header: (Byte, Byte, Byte), blockhash: Key,
                        ixs: seq<Instruction>): (r: seq<Byte>)
  {
    [header.0, header.1, header.2] + Compact(|order|) + WriteKeys(order) + blockhash
    + Compact(|ixs|) + WriteInstructions(order, ixs)
  }

  type Signature = s: seq<Byte> | |s| == 64 witness seq(64, _ => 0)

  function WriteSignatures(sigs: seq<Signature>): (r: seq<Byte>)
    ensures |r| == 64 * |sigs|
  {
    if sigs == [] then [] else sigs[0] + WriteSignatures(sigs[1..])
  }

  /** A legacy transaction, or a version-0 transaction without lookup tables: the version byte
  goes before the message and an empty list of lookups after it. */
  function Write(sigs: seq<Signature>, order: seq<Key>, header: (Byte, Byte, Byte), blockhash: Key,
                 ixs: seq<Instruction>, versioned: bool): (r: seq<Byte>)
  {
    Compact(|sigs|) + WriteSignatures(sigs)
    + (if versioned then [128] else [])
    + WriteMessage(order, header, blockhash, ixs)
    + (if versioned then Compact(0) else [])
  }

  ghost predicate Lists<T(!new)>(order: seq<T>, s: set<T>)
  {
    && (forall i, j :: 0 <= i < j < |order| ==> order[i] != order[j])
    && (forall x :: x in order <==> x in s)
  }

  lemma {:induction false} ListedSize<T(!new)>(order: seq<T>, s: set<T>)
    requires Lists(order, s)
    ensures |order| == |s|
  {
    if order == [] {
      assert s == {};
    } else {
      assert order[0] in s;
      assert forall x :: x in order[1..] <==> x in s - {order[0]};
      ListedSize(order[1..], s - {order[0]});
    }
  }

  /** Counts, the fee payer included, fit the wire format's sixteen bits. */
  predicate Fits(ixs: seq<Instruction>)
  {
    && |ixs| < 65536 && |Accounts(ixs)| < 65535 && |Signers(ixs)| < 65535
    && forall i :: 0 <= i < |ixs| ==> |ixs[i].keys| < 65536 && |ixs[i].data| < 65536
  }

  lemma {:induction false} InstructionsLength(order: seq<Key>, ixs: seq<Instruction>)
    requires forall i :: 0 <= i < |ixs| ==> |ixs[i].keys| < 65536 && |ixs[i].data| < 65536
    ensures |WriteInstructions(order, ixs)| == InstructionSizes(ixs)
  {
    if ixs == [] {
    } else {
      hide Compact;
      InstructionsLength(order, ixs[1..]);
      CompactSizeIsLength(|ixs[0].keys|);
      CompactSizeIsLength(|ixs[0].data|);
    }
  }

  /** Accounts that a message looks up in tables instead of listing. */
  function LookedUp(ixs: seq<Instruction>, tables: seq<set<Key>>): (r: set<Key>)
  {
    Accounts(ixs) * TableKeys(tables) - Programs(ixs) - Signers(ixs)
  }

  /** What the fee payer adds to a transaction beyond what the instructions name: its signature,
  its place in the account list, and the wider counts of both, less the lookup it replaces. */
  function PayerBytes(ixs: seq<Instruction>, payer: Key, tables: seq<set<Key>>): (r: int)
  {
    var signers, listed, looked := Signers(ixs), Static(ixs, tables), LookedUp(ixs, tables);
    CompactSize(|signers + {payer}|) - CompactSize(|signers|) + 64 * (|signers + {payer}| - |signers|)
    + CompactSize(|listed + {payer}|) - CompactSize(|listed|) + 32 * (|listed + {payer}| - |listed|)
    - (|looked| - |looked - {payer}|)
  }

  lemma {:induction false} WithOne<T>(s: set<T>, x: T)
    ensures |s + {x}| == if x in s then |s| else |s| + 1
    ensures |s - {x}| == if x in s then |s| - 1 else |s|
  {
    if x in s {
      assert s + {x} == s;
    } else {
      assert s - {x} == s;
    }
  }

  /** The payer adds nothing exactly when it signs some instruction, and 63 bytes or more
  otherwise. */
  lemma {:induction false} PayerBytesZero(ixs: seq<Instruction>, payer: Key, tables: seq<set<Key>>)
    ensures payer in Signers(ixs) ==> PayerBytes(ixs, payer, tables) == 0
    ensures payer !in Signers(ixs) ==> PayerBytes(ixs, payer, tables) >= 63
  {
    hide Signers, Static, LookedUp;
    SignerIsListed(ixs, payer, tables);
    WithOne(Signers(ixs), payer);
    WithOne(Static(ixs, tables), payer);
    WithOne(LookedUp(ixs, tables), payer);
  }

  lemma {:induction false} SignerIsListed(ixs: seq<Instruction>, k: Key, tables: seq<set<Key>>)
    ensures k in Signers(ixs) ==> k in Static(ixs, tables) && k !in LookedUp(ixs, tables)
  {
    hide Signers, Accounts, Programs, TableKeys;
  }

  lemma {:induction false} StaticWithoutTables(ixs: seq<Instruction>)
    ensures Static(ixs, []) == Accounts(ixs) && LookedUp(ixs, []) == {}
  {
  }

  /** For every legacy transaction and every version-0 transaction without lookup tables, with one
  signature for each signer and the fee payer, whatever order the accounts are listed in, the
  bytes written are the estimate and what the payer adds; so the estimate is exact if and only if
  the payer signs some instruction. */
  lemma {:induction false} EstimateIsExact(payer: Key, sigs: seq<Signature>, order: seq<Key>,
                                           header: (Byte, Byte, Byte), blockhash: Key,
                                           ixs: seq<Instruction>, versioned: bool)
    requires Fits(ixs) && Lists(order, Accounts(ixs) + {payer}) && |sigs| == |Signers(ixs) + {payer}|
    ensures |Write(sigs, order, header, blockhash, ixs, versioned)|
         == Estimate(ixs, versioned, []).0 + PayerBytes(ixs, payer, [])
    ensures |Write(sigs, order, header, blockhash, ixs, versioned)| == Estimate(ixs, versioned, []).0
       <==> payer in Signers(ixs)
    ensures |order| == Estimate(ixs, versioned, []).1 <==> payer in Accounts(ixs)
  {
    hide Compact, CompactSize, InstructionSizes, WriteInstructions;
    hide Signers, Accounts, Programs, Static, LookedUp, TableKeys;
    StaticWithoutTables(ixs);
    ListedSize(order, Accounts(ixs) + {payer});
    WithOne(Accounts(ixs), payer);
    WithOne(Signers(ixs), payer);
    PayerBytesZero(ixs, payer, []);
    InstructionsLength(order, ixs);
    CompactSizeIsLength(|sigs|);
    CompactSizeIsLength(|order|);
    CompactSizeIsLength(|ixs|);
    CompactSizeIsLength(0);
  }

  /** An instruction that nobody signs, paid for by a key it does not name: 96 bytes short. */
  lemma {:induction false} MissingPayerFallsShort(program: Key, payer: Key)
    requires payer != program
    ensures PayerBytes([Instruction(program, [], [])], payer, []) == 96
  {
    hide Static, LookedUp, Accounts, Signers;
    var ixs := [Instruction(program, [], [])];
    KeysOfNone(program);
    StaticWithoutTables(ixs);
    WithOne(Accounts(ixs), payer);
    WithOne(Signers(ixs), payer);
  }

  lemma {:induction false} KeysOfNone(program: Key)
    ensures var ixs := [Instruction(program, [], [])]; Accounts(ixs) == {program} && Signers(ixs) == {}
  {
    var ixs := [Instruction(program, [], [])];
    assert |ixs[1..]| == 0;
  }

  // -------------------------------------------------------------------- lookup tables

  /** Static and looked-up accounts partition the distinct accounts. */
  lemma {:induction false} StaticPlusLookups(ixs: seq<Instruction>, tables: seq<set<Key>>)
    ensures var looked := LookedUp(ixs, tables);
            && Static(ixs, tables) !! looked && Static(ixs, tables) + looked == Accounts(ixs)
            && |Static(ixs, tables)| + |looked| == |Accounts(ixs)| == Estimate(ixs, true, tables).1
  {
    var looked := LookedUp(ixs, tables);
    assert Static(ixs, tables) + looked == Accounts(ixs);
    SubsetSize(Static(ixs, tables), Accounts(ixs));
    assert Accounts(ixs) - Static(ixs, tables) == looked;
  }

  /** How a version-0 message looks accounts up: each table in turn supplies what is still
  wanted; a table that supplies nothing is not written. One entry per written table, the
  writable accounts counted apart from the read-only ones. */
  function Supplied(wanted: set<Key>, writable: set<Key>, tables: seq<set<Key>>): (r: seq<(nat, nat)>)
  {
    if tables == [] then []
    else
      var here := wanted * tables[0];
      (if here == {} then [] else [(|here * writable|, |here - writable|)])
      + Supplied(wanted - here, writable, tables[1..])
  }

  /** Bytes of the entries: a table's key, two counted lists, one byte per account. */
  function EntryBytes(entries: seq<(nat, nat)>): (r: nat)
  {
    if entries == [] then 0
    else
      var (w, q) := entries[0];
      32 + CompactSize(w) + w + CompactSize(q) + q + EntryBytes(entries[1..])
  }

  /** What is looked up when `payer` pays, table by table. */
  function Entries(ixs: seq<Instruction>, payer: Key, writable: set<Key>, tables: seq<set<Key>>): (r: seq<(nat, nat)>)
  {
    Supplied(Accounts(ixs) - Programs(ixs) - Signers(ixs) - {payer}, writable, tables)
  }

  /** Bytes of a version-0 transaction that `payer` pays for: the payer signs and is listed. */
  function WireSize(ixs: seq<Instruction>, payer: Key, writable: set<Key>, tables: seq<set<Key>>): (r: nat)
  {
    var signers, listed := |Signers(ixs) + {payer}|, |Static(ixs, tables) + {payer}|;
    var entries := Entries(ixs, payer, writable, tables);
    CompactSize(signers) + 64 * signers + 1 + 3 + CompactSize(listed) + 32 * listed + 32
    + CompactSize(|ixs|) + InstructionSizes(ixs) + CompactSize(|entries|) + EntryBytes(entries)
  }

  lemma {:induction false} SizesOf(here: set<Key>, writable: set<Key>)
    ensures |here * writable| + |here - writable| == |here|
  {
    SubsetSize(here * writable, here);
    assert here - here * writable == here - writable;
  }

  /** What the first table supplies and what the others still can. */
  lemma {:induction false} SplitAtFirst(wanted: set<Key>, tables: seq<set<Key>>)
    requires tables != []
    ensures var here := wanted * tables[0];
            |wanted * TableKeys(tables)| == |here| + |(wanted - here) * TableKeys(tables[1..])|
  {
    var here := wanted * tables[0];
    var there := (wanted - here) * TableKeys(tables[1..]);
    assert wanted * TableKeys(tables) == here + there;
  }

  /** Bytes that counts of 128 and more take beyond the first. */
  function WideCounts(entries: seq<(nat, nat)>): (r: nat)
  {
    if entries == [] then 0
    else CompactSize(entries[0].0) - 1 + CompactSize(entries[0].1) - 1 + WideCounts(entries[1..])
  }

  /** The tables together supply every wanted account they hold, once. */
  lemma {:induction false} SuppliedAll(wanted: set<Key>, writable: set<Key>, tables: seq<set<Key>>)
    ensures var entries := Supplied(wanted, writable, tables);
            && |entries| <= |tables|
            && EntryBytes(entries) == 34 * |entries| + |wanted * TableKeys(tables)| + WideCounts(entries)
  {
    hide TableKeys, CompactSize;
    if tables == [] {
      assert wanted * TableKeys(tables) == {} by { NoTables(tables); }
    } else {
      var here := wanted * tables[0];
      SplitAtFirst(wanted, tables);
      SuppliedAll(wanted - here, writable, tables[1..]);
      PrependEntry(here, writable, Supplied(wanted - here, writable, tables[1..]));
    }
  }

  lemma {:induction false} NoTables(tables: seq<set<Key>>)
    requires tables == []
    ensures TableKeys(tables) == {}
  {}

  lemma {:induction false} PrependEntry(here: set<Key>, writable: set<Key>, rest: seq<(nat, nat)>)
    ensures var entries := (if here == {} then [] else [(|here * writable|, |here - writable|)]) + rest;
            EntryBytes(entries) - 34 * |entries| - WideCounts(entries)
            == EntryBytes(rest) - 34 * |rest| - WideCounts(rest) + |here|
  {
    hide CompactSize;
    SizesOf(here, writable);
    if here == {} {
      assert [] + rest == rest;
    } else {
      assert ([(|here * writable|, |here - writable|)] + rest)[1..] == rest;
    }
  }

  /** No count is wide when fewer than 128 accounts are wanted. */
  lemma {:induction false} NoWideCounts(wanted: set<Key>, writable: set<Key>, tables: seq<set<Key>>)
    requires |wanted| < 128
    ensures WideCounts(Supplied(wanted, writable, tables)) == 0
  {
    if tables == [] {
    } else {
      var here := wanted * tables[0];
      SubsetSize(here, wanted);
      SizesOf(here, writable);
      NoWideCounts(wanted - here, writable, tables[1..]);
      var rest := Supplied(wanted - here, writable, tables[1..]);
      if here == {} {
        assert [] + rest == rest;
      } else {
        assert ([(|here * writable|, |here - writable|)] + rest)[1..] == rest;
      }
    }
  }

  /** With tables the estimate is over by 32 bytes for every table that supplies nothing, and under
  by two for every further table that does, by every byte that wide counts take, and by what the
  payer adds; it is exact if and only if these cancel. */
  lemma {:induction false} EstimateWithTables(ixs: seq<Instruction>, payer: Key, writable: set<Key>,
                                              tables: seq<set<Key>>)
    requires tables != []
    ensures var entries := Entries(ixs, payer, writable, tables);
            var used := |entries|;
            var wire := WireSize(ixs, payer, writable, tables);
            var missed := 2 * (used - 1) + WideCounts(entries) + CompactSize(used) - 1 + PayerBytes(ixs, payer, tables);
            && used <= |tables|
            && Estimate(ixs, true, tables).0 - wire == 32 * (|tables| - used) - missed
            && (Estimate(ixs, true, tables).0 == wire <==> 32 * (|tables| - used) == missed)
  {
    hide Programs, Signers, Accounts, InstructionSizes, Supplied, EntryBytes, TableKeys, WideCounts;
    var wanted := Accounts(ixs) - Programs(ixs) - Signers(ixs) - {payer};
    SuppliedAll(wanted, writable, tables);
    StaticPlusLookups(ixs, tables);
    assert wanted * TableKeys(tables) == LookedUp(ixs, tables) - {payer};
  }

  /** With fewer than 128 accounts and tables and a payer that signs an instruction, it is exact if
  and only if sixteen times the unused tables is one less than the used ones, as for one table
  that is used. */
  lemma {:induction false} EstimateWithFewTables(ixs: seq<Instruction>, payer: Key, writable: set<Key>,
                                                 tables: seq<set<Key>>)
    requires tables != [] && |tables| < 128 && |Accounts(ixs)| < 128 && payer in Signers(ixs)
    ensures var used := |Entries(ixs, payer, writable, tables)|;
            var wire := WireSize(ixs, payer, writable, tables);
            && Estimate(ixs, true, tables).0 - wire == 32 * (|tables| - used) - 2 * (used - 1)
            && (Estimate(ixs, true, tables).0 == wire <==> 16 * (|tables| - used) == used - 1)
  {
    hide Programs, Signers, Accounts, Supplied, WideCounts, WireSize, Static, Estimate, PayerBytes;
    var wanted := Accounts(ixs) - Programs(ixs) - Signers(ixs) - {payer};
    SubsetSize(wanted, Accounts(ixs));
    NoWideCounts(wanted, writable, tables);
    PayerBytesZero(ixs, payer, tables);
    EstimateWithTables(ixs, payer, writable, tables);
  }

  /** Two tables that supply one account each to an instruction the payer signs: two bytes short. */
  lemma {:induction false} TwoTablesFallShort(program: Key, payer: Key, a: Key, b: Key, writable: set<Key>)
    requires program != a && program != b && a != b && payer != a && payer != b && payer != program
    ensures var ixs := [Instruction(program, [Meta(payer, true), Meta(a, false), Meta(b, false)], [])];
            Estimate(ixs, true, [{a}, {b}]).0 + 2 == WireSize(ixs, payer, writable, [{a}, {b}])
  {
    hide WireSize, Estimate;
    var ixs := [Instruction(program, [Meta(payer, true), Meta(a, false), Meta(b, false)], [])];
    KeysOfThree(program, payer, a, b);
    assert Accounts(ixs) - Programs(ixs) - Signers(ixs) - {payer} == {a, b};
    assert |{program, payer, a, b}| == 4;
    SuppliedTwo(a, b, writable);
    EstimateWithFewTables(ixs, payer, writable, [{a}, {b}]);
  }

  lemma {:induction false} SuppliedTwo(a: Key, b: Key, writable: set<Key>)
    requires a != b
    ensures |Supplied({a, b}, writable, [{a}, {b}])| == 2
  {
    var tables: seq<set<Key>> := [{a}, {b}];
    assert tables[1..] == [{b}];
    SuppliedOne(b, writable);
    assert {a, b} * {a} == {a} && {a, b} - {a} == {b};
  }

  lemma {:induction false} SuppliedOne(b: Key, writable: set<Key>)
    ensures |Supplied({b}, writable, [{b}])| == 1
  {
    var tables: seq<set<Key>> := [{b}];
    assert |tables[1..]| == 0;
    assert {b} * {b} == {b};
  }

  lemma {:induction false} KeysOfOne(m: Meta)
    ensures KeysOf([m]) == {m.key} && SignersOf([m]) == if m.signer then {m.key} else {}
  {
    assert |[m][1..]| == 0;
  }

  lemma {:induction false} KeysOfTwo(a: Key, b: Key)
    ensures var metas := [Meta(a, false), Meta(b, false)]; KeysOf(metas) == {a, b} && SignersOf(metas) == {}
  {
    var metas := [Meta(a, false), Meta(b, false)];
    assert metas[1..] == [Meta(b, false)];
    KeysOfOne(Meta(b, false));
  }

  lemma {:induction false} KeysOfThree(program: Key, payer: Key, a: Key, b: Key)
    ensures var ixs := [Instruction(program, [Meta(payer, true), Meta(a, false), Meta(b, false)], [])];
            Accounts(ixs) == {program, payer, a, b} && Programs(ixs) == {program} && Signers(ixs) == {payer}
  {
    var metas := [Meta(payer, true), Meta(a, false), Meta(b, false)];
    assert metas[1..] == [Meta(a, false), Meta(b, false)];
    KeysOfTwo(a, b);
    var ixs := [Instruction(program, metas, [])];
    assert |ixs[1..]| == 0;
    assert KeysOf(metas) == {payer, a, b} && SignersOf(metas) == {payer};
  }
}
