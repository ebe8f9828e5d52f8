/** The descriptor-driven codec of ethtool.c: one table of (name, offset, size) rows drives
    both the struct-to-dictionary and the dictionary-to-struct direction over raw bytes. */
module StructCodec {
  import opened Words
  import opened Wrappers

  // The range of a 64-bit C `long`.
  const LONG_MIN := -0x8000_0000_0000_0000
  const LONG_MAX := 0x7fff_ffff_ffff_ffff

  // -------------------------------------------------------------------------- one word

  /** The host's byte order; the code reads and writes words natively. */
  datatype ByteOrder = Little | Big

  function Store(v: u32, order: ByteOrder): (b: seq<byte>)
    ensures |b| == 4
  {
    var b0, b1, b2, b3 := v % 256, v / 256 % 256, v / 65536 % 256, v / 16777216;
    if order == Little then [b0, b1, b2, b3] else [b3, b2, b1, b0]
  }

  function Load(b: seq<byte>, order: ByteOrder): u32
    requires |b| == 4
  {
    var low: int, second: int, third: int, high: int :=
      if order == Little then b[0] else b[3],
      if order == Little then b[1] else b[2],
      if order == Little then b[2] else b[1],
      if order == Little then b[3] else b[0];
    low + 256 * second + 65536 * third + 16777216 * high
  }

  lemma LoadStore(v: u32, order: ByteOrder)
    ensures Load(Store(v, order), order) == v
  {
    Digits(v);
  }

  lemma Digits(v: int)
    requires v >= 0
    ensures v == v % 256 + 256 * (v / 256 % 256) + 65536 * (v / 65536 % 256)
                 + 16777216 * (v / 16777216)
  {
    assert v / 65536 == v / 256 / 256;
    assert v / 16777216 == v / 65536 / 256;
  }

  lemma StoreLoad(b: seq<byte>, order: ByteOrder)
    requires |b| == 4
    ensures Store(Load(b, order), order) == b
  {
    if order == Little {
      FromDigits(b[0], b[1], b[2], b[3]);
    } else {
      FromDigits(b[3], b[2], b[1], b[0]);
    }
  }

  lemma FromDigits(d0: int, d1: int, d2: int, d3: int)
    requires 0 <= d0 < 256 && 0 <= d1 < 256 && 0 <= d2 < 256 && 0 <= d3 < 256
    ensures var v := d0 + 256 * d1 + 65536 * d2 + 16777216 * d3;
            v % 256 == d0 && v / 256 % 256 == d1 && v / 65536 % 256 == d2 && v / 16777216 == d3
  {
    var v := d0 + 256 * d1 + 65536 * d2 + 16777216 * d3;
    assert v / 256 == d1 + 256 * d2 + 65536 * d3;
    assert v / 65536 == d2 + 256 * d3;
  }

  predicate IsLong(v: int) { LONG_MIN <= v <= LONG_MAX }

  /** PyLong_AsLong: -1, and an OverflowError left pending, for an integer no `long` holds. */
  function AsLong(v: int): int {
    if IsLong(v) then v else -1
  }

  /** The word an integer is stored as: PyLong_AsLong, then conversion to uint32_t. */
  function ToWord(v: int): u32 { AsLong(v) % WORD }

  /** The word is the integer modulo 2^32 for machine longs, and otherwise only for integers
      that are -1 modulo 2^32. */
  lemma ToWordIff(v: int)
    ensures ToWord(v) == v % WORD <==> IsLong(v) || v % WORD == WORD - 1
  {
  }

  /** 2^64 is stored as 2^32 - 1, not as 0. */
  lemma BeyondLong()
    ensures var v := 0x1_0000_0000_0000_0000; ToWord(v) == WORD - 1 && v % WORD == 0
  {
  }

  // --------------------------------------------------------------------------- tables

  datatype Desc = Desc(name: string, offset: nat, size: nat)

  /** Every row lies within a struct of `n` bytes. */
  ghost predicate InBounds(table: seq<Desc>, n: nat) {
    forall i :: 0 <= i < |table| ==> table[i].offset + table[i].size <= n
  }

  predicate Apart(d: Desc, e: Desc) {
    d.name != e.name && (d.offset + 4 <= e.offset || e.offset + 4 <= d.offset)
  }

  /** Rows of one word each, with distinct names and disjoint ranges. */
  ghost predicate WellFormed(table: seq<Desc>) {
    && (forall i :: 0 <= i < |table| ==> table[i].size == 4)
    && (forall i, j :: 0 <= i < j < |table| ==> Apart(table[i], table[j]))
  }

  predicate Within(d: Desc, p: int) { d.offset <= p < d.offset + 4 }

  /** Some row's word holds byte `p`. */
  ghost predicate Covered(table: seq<Desc>, p: int) {
    exists i :: 0 <= i < |table| && Within(table[i], p)
  }

  ghost function Names(table: seq<Desc>): set<string> {
    set i | 0 <= i < |table| :: table[i].name
  }

  type Dict = map<string, int>

  // -------------------------------------------------------------------- specifications

  function Write(bytes: seq<byte>, offset: nat, word: seq<byte>): (r: seq<byte>)
    requires |word| == 4 && offset + 4 <= |bytes|
    ensures |r| == |bytes|
  {
    bytes[..offset] + word + bytes[offset + 4..]
  }

  function Read(bytes: seq<byte>, offset: nat, order: ByteOrder): u32
    requires offset + 4 <= |bytes|
  {
    Load(bytes[offset..offset + 4], order)
  }

  /** The bytes after the words of `fields` have been stored in table order. */
  ghost function Packed(fields: seq<Desc>, bytes: seq<byte>, dict: Dict, order: ByteOrder)
    : (r: seq<byte>)
    requires forall i :: 0 <= i < |fields| ==>
      fields[i].offset + 4 <= |bytes| && fields[i].name in dict
    ensures |r| == |bytes|
  {
    if fields == [] then bytes
    else
      var last := fields[|fields| - 1];
      Write(Packed(fields[..|fields| - 1], bytes, dict, order),
            last.offset, Store(ToWord(dict[last.name]), order))
  }

  /** The dictionary after the words of `fields` have been entered in table order. */
  ghost function Unpacked(fields: seq<Desc>, bytes: seq<byte>, order: ByteOrder): Dict
    requires forall i :: 0 <= i < |fields| ==> fields[i].offset + 4 <= |bytes|
  {
    if fields == [] then map[]
    else
      var last := fields[|fields| - 1];
      Unpacked(fields[..|fields| - 1], bytes, order)[last.name := Read(bytes, last.offset, order)]
  }

  predicate Bad(d: Desc, dict: Dict) { d.size != 4 || d.name !in dict }

  /** The first row that packing stumbles over, or the length of the table. */
  ghost function FirstBad(table: seq<Desc>, dict: Dict): (k: nat)
    ensures k <= |table|
    ensures forall i :: 0 <= i < k ==> !Bad(table[i], dict)
    ensures k < |table| ==> Bad(table[k], dict)
  {
    if table == [] || Bad(table[0], dict) then 0 else 1 + FirstBad(table[1..], dict)
  }

  lemma FirstBadIs(table: seq<Desc>, dict: Dict, k: nat)
    requires k <= |table|
    requires forall i :: 0 <= i < k ==> !Bad(table[i], dict)
    requires k < |table| ==> Bad(table[k], dict)
    ensures FirstBad(table, dict) == k
  {
    if k > 0 && table != [] { FirstBadIs(table[1..], dict, k - 1); }
  }

  datatype PackError = InvalidSize(size: nat, name: string) | MissingEntry(name: string)

  // ------------------------------------------------------------------------ the loops

  lemma UnpackedNext(table: seq<Desc>, bytes: seq<byte>, order: ByteOrder, i: nat)
    requires i < |table| && forall j :: 0 <= j <= i ==> table[j].offset + 4 <= |bytes|
    ensures Unpacked(table[..i + 1], bytes, order)
         == Unpacked(table[..i], bytes, order)[table[i].name := Read(bytes, table[i].offset, order)]
  {
    hide Read;
    assert table[..i + 1][..i] == table[..i];
  }

  /** __struct_desc_create_dict */
  method StructDescCreateDict(table: seq<Desc>, values: array<byte>, order: ByteOrder)
    returns (r: Option<Dict>)
    requires InBounds(table, values.Length)
    ensures r.None? <==> exists i :: 0 <= i < |table| && table[i].size != 4
    ensures r.Some? ==> r.value == Unpacked(table, values[..], order)
  {
    hide Unpacked, Load;
    var dict: Dict := map[];
    NothingUnpacked(values[..], order);
    assert table[..0] == [];
    for i := 0 to |table|
      invariant forall j :: 0 <= j < i ==> table[j].size == 4
      invariant dict == Unpacked(table[..i], values[..], order)
    {
      var d := table[i];
      if d.size != 4 {
        return None;
      }
      UnpackedNext(table, values[..], order, i);
      assert values[..][d.offset..d.offset + 4] == values[d.offset..d.offset + 4];
      dict := dict[d.name := Load(values[d.offset..d.offset + 4], order)];
    }
    assert table[..|table|] == table;
    return Some(dict);
  }

  lemma NothingUnpacked(bytes: seq<byte>, order: ByteOrder)
    ensures Unpacked([], bytes, order) == map[]
  {
  }

  /** Every row's value in the dictionary is a machine long. */
  ghost predicate AllLong(table: seq<Desc>, dict: Dict) {
    forall i :: 0 <= i < |table| && table[i].name in dict ==> IsLong(dict[table[i].name])
  }

  /** One more row packed. */
  lemma PackedNext(table: seq<Desc>, bytes: seq<byte>, dict: Dict, order: ByteOrder, i: nat)
    requires i < |table| && forall j :: 0 <= j <= i ==>
      table[j].offset + 4 <= |bytes| && table[j].name in dict
    ensures Packed(table[..i + 1], bytes, dict, order)
         == Write(Packed(table[..i], bytes, dict, order), table[i].offset,
                  Store(ToWord(dict[table[i].name]), order))
    ensures AllLong(table[..i + 1], dict) <==> AllLong(table[..i], dict) && IsLong(dict[table[i].name])
  {
    hide Store, ToWord, Write, IsLong;
    assert table[..i + 1][..i] == table[..i];
    if AllLong(table[..i + 1], dict) {
      forall j | 0 <= j < i ensures IsLong(dict[table[..i][j].name]) {
        assert table[..i + 1][j] == table[..i][j];
      }
      assert table[..i + 1][i] == table[i];
    }
  }

  /** __struct_desc_from_dict: on failure the rows before the offending one stay written.
      `pending` is the OverflowError of PyLong_AsLong, which nothing here looks at; it is
      gone once another error has been set. */
  method StructDescFromDict(table: seq<Desc>, to: array<byte>, dict: Dict, order: ByteOrder)
    returns (err: Option<PackError>, pending: bool)
    requires InBounds(table, to.Length)
    modifies to
    ensures to[..] == Packed(table[..FirstBad(table, dict)], old(to[..]), dict, order)
    ensures err.None? <==> FirstBad(table, dict) == |table|
    ensures err.Some? ==>
      var d := table[FirstBad(table, dict)];
      err.value == (if d.size != 4 then InvalidSize(d.size, d.name) else MissingEntry(d.name)) && !pending
    ensures err.None? ==> (pending <==> !AllLong(table, dict))
  {
    hide Packed, AllLong, Store, ToWord, IsLong, Write;
    ghost var before := to[..];
    NothingPacked(before, dict, order);
    assert table[..0] == [];
    pending := false;
    for i := 0 to |table|
      invariant forall j :: 0 <= j < i ==> !Bad(table[j], dict)
      invariant to[..] == Packed(table[..i], before, dict, order)
      invariant pending <==> !AllLong(table[..i], dict)
    {
      var d := table[i];
      if d.size == 4 {
        if d.name !in dict {
          FirstBadIs(table, dict, i);
          return Some(MissingEntry(d.name)), false;
        }
        PackedNext(table, before, dict, order, i);
        pending := pending || !IsLong(dict[d.name]);
        StoreWord(to, d.offset, ToWord(dict[d.name]), order);
      } else {
        FirstBadIs(table, dict, i);
        return Some(InvalidSize(d.size, d.name)), false;
      }
    }
    FirstBadIs(table, dict, |table|);
    assert table[..|table|] == table;
    return None, pending;
  }

  lemma NothingPacked(bytes: seq<byte>, dict: Dict, order: ByteOrder)
    ensures Packed([], bytes, dict, order) == bytes && AllLong([], dict)
  {
  }

  /** The assignment through a uint32_t pointer. */
  method StoreWord(to: array<byte>, offset: nat, v: u32, order: ByteOrder)
    requires offset + 4 <= to.Length
    modifies to
    ensures to[..] == Write(old(to[..]), offset, Store(v, order))
  {
    var w := Store(v, order);
    to[offset], to[offset + 1], to[offset + 2], to[offset + 3] := w[0], w[1], w[2], w[3];
  }

  // ------------------------------------------------------------------------ properties

  lemma WriteAt(bytes: seq<byte>, offset: nat, word: seq<byte>)
    requires |word| == 4 && offset + 4 <= |bytes|
    ensures Write(bytes, offset, word)[offset..offset + 4] == word
    ensures forall p | 0 <= p < |bytes| && !(offset <= p < offset + 4) ::
      Write(bytes, offset, word)[p] == bytes[p]
  {
  }

  lemma WriteElsewhere(bytes: seq<byte>, offset: nat, word: seq<byte>, o: nat)
    requires |word| == 4 && offset + 4 <= |bytes| && o + 4 <= |bytes|
    requires o + 4 <= offset || offset + 4 <= o
    ensures Write(bytes, offset, word)[o..o + 4] == bytes[o..o + 4]
  {
  }

  lemma UncoveredApart(fields: seq<Desc>, p: int)
    requires fields != [] && !Covered(fields, p)
    ensures !Covered(fields[..|fields| - 1], p) && !Within(fields[|fields| - 1], p)
  {
    var before := fields[..|fields| - 1];
    forall i | 0 <= i < |before| ensures !Within(before[i], p) {
      assert !Within(fields[i], p);
    }
  }

  /** Packing changes no byte outside the words of its rows. */
  lemma {:induction false} PackedFrame(fields: seq<Desc>, bytes: seq<byte>, dict: Dict,
                                       order: ByteOrder, p: nat)
    requires forall i :: 0 <= i < |fields| ==>
      fields[i].offset + 4 <= |bytes| && fields[i].name in dict
    requires p < |bytes| && !Covered(fields, p)
    ensures Packed(fields, bytes, dict, order)[p] == bytes[p]
  {
    hide Store, Load, ToWord, Write, Covered;
    if fields != [] {
      var n := |fields| - 1;
      UncoveredApart(fields, p);
      PackedFrame(fields[..n], bytes, dict, order, p);
      WriteAt(Packed(fields[..n], bytes, dict, order), fields[n].offset,
              Store(ToWord(dict[fields[n].name]), order));
    }
  }

  /** With disjoint rows, every row's word survives the rows packed after it. */
  lemma {:induction false} PackedWord(fields: seq<Desc>, bytes: seq<byte>, dict: Dict,
                                      order: ByteOrder, k: nat)
    requires forall i :: 0 <= i < |fields| ==>
      fields[i].offset + 4 <= |bytes| && fields[i].name in dict
    requires WellFormed(fields) && k < |fields|
    ensures Packed(fields, bytes, dict, order)[fields[k].offset..fields[k].offset + 4]
         == Store(ToWord(dict[fields[k].name]), order)
  {
    hide Store, Load, ToWord;
    var n := |fields| - 1;
    var before := Packed(fields[..n], bytes, dict, order);
    WriteAt(before, fields[n].offset, Store(ToWord(dict[fields[n].name]), order));
    if k < n {
      PackedWord(fields[..n], bytes, dict, order, k);
      assert Apart(fields[k], fields[n]);
      WriteElsewhere(before, fields[n].offset, Store(ToWord(dict[fields[n].name]), order),
                     fields[k].offset);
    }
  }

  /** With distinct names, a dictionary entry survives the rows entered after it. */
  lemma {:induction false} UnpackedEntry(fields: seq<Desc>, bytes: seq<byte>,
                                         order: ByteOrder, k: nat)
    requires forall i :: 0 <= i < |fields| ==> fields[i].offset + 4 <= |bytes|
    requires WellFormed(fields) && k < |fields|
    ensures fields[k].name in Unpacked(fields, bytes, order)
    ensures Unpacked(fields, bytes, order)[fields[k].name] == Read(bytes, fields[k].offset, order)
  {
    var n := |fields| - 1;
    if k < n {
      UnpackedEntry(fields[..n], bytes, order, k);
      assert Apart(fields[k], fields[n]);
    }
  }

  lemma {:induction false} UnpackedKeys(fields: seq<Desc>, bytes: seq<byte>, order: ByteOrder)
    requires forall i :: 0 <= i < |fields| ==> fields[i].offset + 4 <= |bytes|
    ensures Unpacked(fields, bytes, order).Keys == Names(fields)
  {
    if fields != [] {
      var n := |fields| - 1;
      UnpackedKeys(fields[..n], bytes, order);
      assert Names(fields) == Names(fields[..n]) + {fields[n].name} by {
        forall x | x in Names(fields) ensures x in Names(fields[..n]) + {fields[n].name} {
          var i :| 0 <= i < |fields| && fields[i].name == x;
          assert i < n ==> fields[..n][i].name == x;
        }
        forall x | x in Names(fields[..n]) ensures x in Names(fields) {
          var i :| 0 <= i < n && fields[..n][i].name == x;
          assert fields[i].name == x;
        }
      }
    }
  }

  /** Packing fails exactly when some row has another size than a word or a name the
      dictionary lacks; what has then been written is the words of the rows before the
      first such row, and nothing else has changed. */
  lemma PackingFailsExactly(table: seq<Desc>, bytes: seq<byte>, dict: Dict, order: ByteOrder)
    requires InBounds(table, |bytes|)
    ensures FirstBad(table, dict) < |table|
       <==> exists i :: 0 <= i < |table| && (table[i].size != 4 || table[i].name !in dict)
    ensures var k := FirstBad(table, dict);
            var after := Packed(table[..k], bytes, dict, order);
            && (WellFormed(table[..k]) ==>
                  forall i :: 0 <= i < k ==>
                    after[table[i].offset..table[i].offset + 4]
                    == Store(ToWord(dict[table[i].name]), order))
            && (forall p :: 0 <= p < |bytes| && !Covered(table[..k], p) ==> after[p] == bytes[p])
  {
    var k := FirstBad(table, dict);
    if i :| 0 <= i < |table| && (table[i].size != 4 || table[i].name !in dict) {
      assert Bad(table[i], dict);
    }
    forall i | 0 <= i < k && WellFormed(table[..k])
      ensures Packed(table[..k], bytes, dict, order)[table[i].offset..table[i].offset + 4]
           == Store(ToWord(dict[table[i].name]), order)
    {
      PackedWord(table[..k], bytes, dict, order, i);
    }
    forall p | 0 <= p < |bytes| && !Covered(table[..k], p)
      ensures Packed(table[..k], bytes, dict, order)[p] == bytes[p]
    {
      PackedFrame(table[..k], bytes, dict, order, p);
    }
  }

  /** What a dictionary becomes by way of the struct. */
  ghost function Truncated(table: seq<Desc>, dict: Dict): Dict
    requires Names(table) <= dict.Keys
  {
    map name | name in Names(table) :: ToWord(dict[name])
  }

  /** The table's part of a dictionary with every value modulo 2^32. */
  ghost function Modulo(table: seq<Desc>, dict: Dict): Dict
    requires Names(table) <= dict.Keys
  {
    map name | name in Names(table) :: dict[name] % WORD
  }

  /** The two agree exactly if every value is a machine long or -1 modulo 2^32. */
  lemma TruncatedIsModuloIff(table: seq<Desc>, dict: Dict)
    requires Names(table) <= dict.Keys
    ensures Truncated(table, dict) == Modulo(table, dict)
       <==> forall name | name in Names(table) :: IsLong(dict[name]) || dict[name] % WORD == WORD - 1
    ensures AllLong(table, dict) ==> Truncated(table, dict) == Modulo(table, dict)
  {
    hide ToWord, IsLong;
    forall name | name in Names(table)
      ensures Truncated(table, dict)[name] == Modulo(table, dict)[name]
         <==> IsLong(dict[name]) || dict[name] % WORD == WORD - 1
    {
      ToWordIff(dict[name]);
    }
    if AllLong(table, dict) {
      forall name | name in Names(table) ensures IsLong(dict[name]) {
        var i :| 0 <= i < |table| && table[i].name == name;
      }
    }
  }

  lemma UnpackedIs(table: seq<Desc>, bytes: seq<byte>, order: ByteOrder, dict: Dict)
    requires WellFormed(table) && InBounds(table, |bytes|)
    requires dict.Keys == Names(table)
    requires forall i :: 0 <= i < |table| ==>
      table[i].name in dict && Read(bytes, table[i].offset, order) == dict[table[i].name]
    ensures Unpacked(table, bytes, order) == dict
  {
    UnpackedKeys(table, bytes, order);
    forall x | x in Names(table) ensures Unpacked(table, bytes, order)[x] == dict[x] {
      var i :| 0 <= i < |table| && table[i].name == x;
      UnpackedEntry(table, bytes, order, i);
    }
  }

  lemma NameListed(table: seq<Desc>, dict: Dict)
    requires Names(table) <= dict.Keys
    ensures forall i :: 0 <= i < |table| ==> table[i].name in dict
  {
    forall i | 0 <= i < |table| ensures table[i].name in dict {
      assert table[i].name in Names(table);
    }
  }

  /** The struct as send_command passes it on: `cmd` is the first word of every struct. */
  ghost function Sent(packed: seq<byte>, cmd: u32, order: ByteOrder): (r: seq<byte>)
    requires 4 <= |packed|
    ensures |r| == |packed|
  {
    Write(packed, 0, Store(cmd, order))
  }

  /** Reading does not look at the command word. */
  lemma CommandWordIsOutside(table: seq<Desc>, stored: seq<byte>, cmd: u32, order: ByteOrder)
    requires WellFormed(table) && InBounds(table, |stored|) && 4 <= |stored|
    requires forall i :: 0 <= i < |table| ==> table[i].offset >= 4
    ensures Unpacked(table, Sent(stored, cmd, order), order) == Unpacked(table, stored, order)
  {
    hide Unpacked, Read, Sent;
    var sent, dict := Sent(stored, cmd, order), Unpacked(table, stored, order);
    UnpackedKeys(table, stored, order);
    forall i | 0 <= i < |table|
      ensures table[i].name in dict && Read(sent, table[i].offset, order) == dict[table[i].name]
    {
      UnpackedEntry(table, stored, order, i);
      SentReadsSame(stored, cmd, order, table[i].offset);
    }
    UnpackedIs(table, sent, order, dict);
  }

  lemma SentReadsSame(stored: seq<byte>, cmd: u32, order: ByteOrder, offset: nat)
    requires 4 <= offset && offset + 4 <= |stored|
    ensures Read(Sent(stored, cmd, order), offset, order) == Read(stored, offset, order)
  {
    hide Store, Load, Write;
    WriteElsewhere(stored, 0, Store(cmd, order), offset);
  }

  /** Dictionary to bytes to dictionary: exactly the table's names come back, each with the
      word its value is stored as, which is the value modulo 2^32 exactly if all values are
      machine longs or -1 modulo 2^32. */
  lemma DictRoundTrip(table: seq<Desc>, bytes: seq<byte>, dict: Dict, order: ByteOrder)
    requires WellFormed(table) && InBounds(table, |bytes|) && Names(table) <= dict.Keys
    ensures forall i :: 0 <= i < |table| ==> table[i].name in dict
    ensures Unpacked(table, Packed(table, bytes, dict, order), order) == Truncated(table, dict)
    ensures Unpacked(table, Packed(table, bytes, dict, order), order) == Modulo(table, dict)
       <==> forall name | name in Names(table) :: IsLong(dict[name]) || dict[name] % WORD == WORD - 1
  {
    hide Store, Load, ToWord, IsLong, Packed, Unpacked;
    NameListed(table, dict);
    var packed := Packed(table, bytes, dict, order);
    var goal := Truncated(table, dict);
    forall i | 0 <= i < |table|
      ensures table[i].name in goal && Read(packed, table[i].offset, order) == goal[table[i].name]
    {
      assert table[i].name in Names(table);
      PackedWord(table, bytes, dict, order, i);
      LoadStore(ToWord(dict[table[i].name]), order);
    }
    UnpackedIs(table, packed, order, goal);
    TruncatedIsModuloIff(table, dict);
  }

  /** The same after send_command has overwritten the first word in between, for tables with
      no row below offset 4. */
  lemma SentRoundTrip(table: seq<Desc>, bytes: seq<byte>, dict: Dict, order: ByteOrder, cmd: u32)
    requires WellFormed(table) && InBounds(table, |bytes|) && 4 <= |bytes|
    requires Names(table) <= dict.Keys
    requires forall i :: 0 <= i < |table| ==> table[i].offset >= 4
    ensures forall i :: 0 <= i < |table| ==> table[i].name in dict
    ensures Unpacked(table, Sent(Packed(table, bytes, dict, order), cmd, order), order)
         == Truncated(table, dict)
  {
    hide Store, Load, Packed, Unpacked;
    DictRoundTrip(table, bytes, dict, order);
    CommandWordIsOutside(table, Packed(table, bytes, dict, order), cmd, order);
  }

  lemma WordRoundTrip(table: seq<Desc>, source: seq<byte>, target: seq<byte>,
                      order: ByteOrder, dict: Dict, i: nat)
    requires WellFormed(table) && InBounds(table, |source|) && |target| == |source|
    requires i < |table| && dict == Unpacked(table, source, order)
    requires forall j :: 0 <= j < |table| ==> table[j].name in dict
    ensures var o := table[i].offset;
            Packed(table, target, dict, order)[o..o + 4] == source[o..o + 4]
  {
    hide Store, Load, Packed, Unpacked;
    PackedWord(table, target, dict, order, i);
    UnpackedEntry(table, source, order, i);
    StoreLoad(source[table[i].offset..table[i].offset + 4], order);
  }

  lemma CoveredByte(table: seq<Desc>, source: seq<byte>, target: seq<byte>,
                    order: ByteOrder, dict: Dict, p: nat)
    requires WellFormed(table) && InBounds(table, |source|) && |target| == |source|
    requires dict == Unpacked(table, source, order)
    requires forall j :: 0 <= j < |table| ==> table[j].name in dict
    requires p < |source| && Covered(table, p)
    ensures Packed(table, target, dict, order)[p] == source[p]
  {
    hide Packed, Unpacked;
    var i :| 0 <= i < |table| && Within(table[i], p);
    var o := table[i].offset;
    WordRoundTrip(table, source, target, order, dict, i);
    var packed := Packed(table, target, dict, order);
    assert packed[o..o + 4][p - o] == source[o..o + 4][p - o];
  }

  /** Bytes to dictionary to bytes: every byte under a row is reproduced, every other byte
      of the target stays. */
  lemma BytesRoundTrip(table: seq<Desc>, source: seq<byte>, target: seq<byte>,
                       order: ByteOrder)
    requires WellFormed(table) && InBounds(table, |source|) && |target| == |source|
    ensures Unpacked(table, source, order).Keys == Names(table)
    ensures forall i :: 0 <= i < |table| ==> table[i].name in Unpacked(table, source, order)
    ensures forall p :: 0 <= p < |target| ==>
      Packed(table, target, Unpacked(table, source, order), order)[p]
      == if Covered(table, p) then source[p] else target[p]
  {
    hide Packed, Unpacked, Covered;
    var dict := Unpacked(table, source, order);
    UnpackedKeys(table, source, order);
    NameListed(table, dict);
    forall p | 0 <= p < |target|
      ensures Packed(table, target, dict, order)[p] == if Covered(table, p) then source[p] else target[p]
    {
      if Covered(table, p) {
        CoveredByte(table, source, target, order, dict, p);
      } else {
        PackedFrame(table, target, dict, order, p);
      }
    }
  }
}
