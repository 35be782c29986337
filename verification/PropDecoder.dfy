/** Decoding the GPU property blob: little-endian records of a 32-bit header and a value. */
module PropDecoder {
  import opened MachineInts
  import opened Bits
  import opened LittleEndian

  const NUM_L2_SLICES := 15
  const RAW_GPU_ID := 55
  const NUM_CORE_GROUPS := 62
  const CORE_GROUP_0 := 64
  const MASKS := 16

  lemma OneByteMore(initial: nat, s: seq<Byte>, b: nat, x: nat)
    requires b < |s| && x == s[b] * Pow2(8 * b)
    ensures BitOr(BitOr(initial, Word(s[..b])), x) == BitOr(initial, Word(s[..b + 1]))
  {
    var w := Word(s[..b]);
    OrAssociates(initial, w, x);
    WordFits(s[..b]);
    OrDisjoint(w, s[b], 8 * b);
    assert Word(s[..b + 1]) == w + x by {
      assert s[..b + 1][..b] == s[..b];
    }
  }

  // ---------- one record ----------

  datatype Item = Item(id: nat, value: nat)

  /** Bytes of the value for the two low bits of a header. */
  function Width(code: nat): (w: nat)
    requires code < 4
    ensures 1 <= w <= 8
  {
    if code == 0 then 1 else if code == 1 then 2 else if code == 2 then 4 else 8
  }

  /** The values of that width lie below this. */
  function Limit(code: nat): nat
    requires code < 4
  {
    if code == 0 then 0x100 else if code == 1 then 0x1_0000 else if code == 2 then TWO_32 else TWO_64
  }

  lemma LimitIsPow2(code: nat)
    requires code < 4
    ensures Limit(code) == Pow2(8 * Width(code))
  {
    Pow2Of32();
    Pow2Add(32, 32);
    Pow2Add(8, 8);
    assert Pow2(8) == 256;
  }

  /** The two bits are the binary logarithm of the width in bytes. */
  lemma WidthIsPower(code: nat)
    requires code < 4
    ensures Width(code) == Pow2(code)
  {
    assert Pow2(2) == 4;
  }

  function HeaderId(v: nat): (id: nat)
    ensures id < 256
  {
    v / 4 % 256
  }

  /** The 8- and 16-bit readers or the bytes into an uninitialised variable, which holds `stale`. */
  function Value(s: seq<Byte>, stale: nat): nat {
    if |s| <= 2 then BitOr(Low(stale, 8 * |s|), Word(s)) else Word(s)
  }

  /** What remains unread after one call of `prop_decoder__next`. */
  function Rest(d: seq<Byte>): (r: seq<Byte>)
    ensures |d| < 4 ==> r == d
    ensures |d| >= 4 ==> |r| <= |d| - 4
  {
    if |d| < 4 then d
    else
      var w := Width(Word(d[..4]) % 4);
      if |d| - 4 < w then d[4..] else d[4 + w..]
  }

  /** The id and value that call reports; truncated data is reported as id 0. */
  function Next(d: seq<Byte>, stale: nat -> nat): Item {
    if |d| < 4 then Item(0, 0)
    else
      var v := Word(d[..4]);
      var w := Width(v % 4);
      if |d| - 4 < w then Item(0, 0)
      else Item(HeaderId(v), Value(d[4..4 + w], stale(|d|)))
  }

  // ---------- the whole blob ----------

  /** What `prop_decoder__next` reports, call by call, while it makes progress. */
  function Items(d: seq<Byte>, stale: nat -> nat): seq<Item>
    decreases |d|
  {
    if |d| < 4 then [] else [Next(d, stale)] + Items(Rest(d), stale)
  }

  /** How many bytes are left when it stops making progress. */
  function Leftover(d: seq<Byte>): (n: nat)
    ensures n < 4
    decreases |d|
  {
    if |d| < 4 then |d| else Leftover(Rest(d))
  }

  /** The unread bytes after `k` iterations of the source's loop. */
  function After(d: seq<Byte>, k: nat): seq<Byte>
    decreases k
  {
    if k == 0 then d else After(Rest(d), k - 1)
  }

  /** The value of the last item with this id. */
  function Last(items: seq<Item>, id: nat, initial: nat): nat {
    if items == [] then initial
    else
      var n := |items| - 1;
      if items[n].id == id then items[n].value else Last(items[..n], id, initial)
  }

  /** Or of the masks of the first `n` core groups. */
  function MaskOf(items: seq<Item>, stack: seq<nat>, n: nat): nat
    requires n <= |stack|
  {
    if n == 0 then 0
    else BitOr(MaskOf(items, stack, n - 1), Last(items, CORE_GROUP_0 + n - 1, stack[n - 1]))
  }

  datatype Constants = Constants(gpuId: nat, numL2Slices: nat, shaderCoreMask: nat, numShaderCores: nat)

  /** The loop ends, or repeats the same iteration for ever, or the mask array is read past its end. */
  datatype Outcome = Done(constants: Constants) | Spins | OutsideMasks

  /** `stack` is what the uninitialised mask array happens to hold. */
  function Decode(d: seq<Byte>, stale: nat -> nat, stack: seq<nat>): Outcome
    requires |stack| == MASKS
  {
    if Leftover(d) != 0 then Spins else Constructed(Items(d, stale), stack)
  }

  function Constructed(items: seq<Item>, stack: seq<nat>): Outcome
    requires |stack| == MASKS
  {
    var groups := Last(items, NUM_CORE_GROUPS, 0);
    if groups > MASKS then OutsideMasks
    else
      var mask := MaskOf(items, stack, groups);
      Done(Constants(Last(items, RAW_GPU_ID, 0), Last(items, NUM_L2_SLICES, 0), mask, CountBits(mask % TWO_32, 32)))
  }

  lemma OneItemMore(seen: seq<Item>, d: seq<Byte>, stale: nat -> nat)
    requires |d| >= 4
    ensures seen + Items(d, stale) == seen + [Next(d, stale)] + Items(Rest(d), stale)
    ensures Leftover(d) == Leftover(Rest(d))
  {
  }

  // ---------- the decoder ----------

  class Decoder {
    const buffer: seq<Byte>
    var data: nat
    var size: nat

    ghost predicate Valid()
      reads this
    {
      data + size == |buffer|
    }

    ghost function Unread(): seq<Byte>
      reads this
      requires Valid()
    {
      buffer[data..]
    }

    constructor (properties: seq<Byte>)
      ensures Valid() && Unread() == properties
    {
      buffer, data, size := properties, 0, |properties|;
    }

    /** The four `prop_reader_le_read_bytes_*`; `initial` is what `ret` starts with. */
    method ReadBytes(width: nat, initial: nat) returns (ret: nat)
      requires Valid() && width <= size
      modifies this`data, this`size
      ensures Valid() && Unread() == old(Unread())[width..]
      ensures ret == BitOr(initial, Word(old(Unread())[..width]))
    {
      ret := initial;
      ghost var s := Unread();
      for b := 0 to width
        invariant data == old(data) && size == old(size)
        invariant ret == BitOr(initial, Word(s[..b]))
      {
        var shifted := buffer[data + b] * Pow2(8 * b);
        OneByteMore(initial, s, b, shifted);
        ret := BitOr(ret, shifted);
      }
      data, size := data + width, size - width;
      assert Unread() == s[width..];
    }

    /** `prop_decoder__next`. */
    method Step(stale: nat -> nat) returns (item: Item)
      requires Valid()
      modifies this`data, this`size
      ensures Valid()
      ensures item == Next(old(Unread()), stale)
      ensures Unread() == Rest(old(Unread()))
    {
      ghost var d := Unread();
      var before := size;
      if size < 4 {
        return Item(0, 0);
      }
      var v := ReadBytes(4, 0);
      var w := Width(v % 4);
      if size < w {
        return Item(0, 0);
      }
      assert Unread()[..w] == d[4..4 + w];
      var value := ReadBytes(w, if w <= 2 then Low(stale(before), 8 * w) else 0);
      item := Item(HeaderId(v), value);
    }

    /** The loop of `prop_decoder__run`. With one to three bytes unread the source's loop never
        ends; the model stops there. */
    method Collect(stale: nat -> nat, stack: seq<nat>)
      returns (gpuId: nat, slices: nat, groups: nat, masks: seq<nat>)
      requires Valid() && |stack| == MASKS
      modifies this`data, this`size
      ensures Valid() && size == Leftover(old(Unread()))
      ensures var items := Items(old(Unread()), stale);
        && gpuId == Last(items, RAW_GPU_ID, 0) && slices == Last(items, NUM_L2_SLICES, 0)
        && groups == Last(items, NUM_CORE_GROUPS, 0)
        && |masks| == MASKS
        && forall i :: 0 <= i < MASKS ==> masks[i] == Last(items, CORE_GROUP_0 + i, stack[i])
    {
      ghost var d, seen := Unread(), [];
      gpuId, slices, groups, masks := 0, 0, 0, stack;
      assert seen + Items(d, stale) == Items(d, stale);
      while size >= 4
        invariant Valid()
        invariant seen + Items(Unread(), stale) == Items(d, stale) && Leftover(Unread()) == Leftover(d)
        invariant gpuId == Last(seen, RAW_GPU_ID, 0) && slices == Last(seen, NUM_L2_SLICES, 0)
        invariant groups == Last(seen, NUM_CORE_GROUPS, 0)
        invariant |masks| == MASKS
        invariant forall i :: 0 <= i < MASKS ==> masks[i] == Last(seen, CORE_GROUP_0 + i, stack[i])
        decreases size
      {
        OneItemMore(seen, Unread(), stale);
        var item := Step(stale);
        assert (seen + [item])[..|seen|] == seen;
        seen := seen + [item];
        if item.id == RAW_GPU_ID {
          gpuId := item.value;
        } else if item.id == NUM_L2_SLICES {
          slices := item.value;
        } else if item.id == NUM_CORE_GROUPS {
          groups := item.value;
        } else if CORE_GROUP_0 <= item.id < CORE_GROUP_0 + MASKS {
          masks := masks[item.id - CORE_GROUP_0 := item.value];
        }
      }
      assert seen == Items(d, stale);
    }

    /** `prop_decoder__run`. */
    method Run(stale: nat -> nat, stack: seq<nat>) returns (o: Outcome)
      requires Valid() && |stack| == MASKS
      modifies this`data, this`size
      ensures Valid()
      ensures o == Decode(old(Unread()), stale, stack)
      ensures |Unread()| == Leftover(old(Unread()))
    {
      ghost var items := Items(Unread(), stale);
      var gpuId, slices, groups, masks := Collect(stale, stack);
      if size > 0 {
        return Spins;
      }
      if groups > MASKS {
        return OutsideMasks;
      }
      var mask := 0;
      for i := 0 to groups
        invariant mask == MaskOf(items, stack, i)
      {
        mask := BitOr(mask, masks[i]);
      }
      o := Done(Constants(gpuId, slices, mask, CountBits(mask % TWO_32, 32)));
    }
  }

  // ---------- termination ----------

  lemma {:induction false} AfterStuck(d: seq<Byte>, k: nat)
    requires |d| < 4
    ensures After(d, k) == d
  {
    if k > 0 { AfterStuck(d, k - 1); }
  }

  lemma {:induction false} AfterEnough(d: seq<Byte>, k: nat)
    requires |d| <= 4 * k
    ensures |After(d, k)| == Leftover(d)
    decreases k
  {
    if |d| < 4 {
      AfterStuck(d, k);
    } else {
      AfterEnough(Rest(d), k - 1);
    }
  }

  lemma {:induction false} EndsOnlyWithout(d: seq<Byte>, k: nat)
    requires After(d, k) == []
    ensures Leftover(d) == 0
    decreases k
  {
    if |d| < 4 {
      AfterStuck(d, k);
    } else {
      EndsOnlyWithout(Rest(d), k - 1);
    }
  }

  /** Without reference to the decoder: the blob is a sequence of frames. A frame is a header with its
      whole value, or a bare header whose value would not fit in what follows. */
  ghost predicate Framed(d: seq<Byte>, frames: seq<seq<Byte>>)
    decreases |frames|
  {
    if frames == [] then d == []
    else
      var f := frames[0];
      && |f| <= |d| && f == d[..|f|] && IsFrame(f, |d| - |f|)
      && Framed(d[|f|..], frames[1..])
  }

  ghost predicate IsFrame(f: seq<Byte>, behind: nat) {
    && |f| >= 4
    && var w := Width(Word(f[..4]) % 4); |f| == 4 + w || (|f| == 4 && behind < w)
  }

  lemma FrameIsRest(d: seq<Byte>, f: seq<Byte>)
    requires |f| <= |d| && f == d[..|f|] && IsFrame(f, |d| - |f|)
    ensures |d| >= 4 && Rest(d) == d[|f|..]
  {
    assert f[..4] == d[..4];
  }

  lemma {:induction false} FramedEnds(d: seq<Byte>, frames: seq<seq<Byte>>)
    requires Framed(d, frames)
    ensures Leftover(d) == 0
    decreases |frames|
  {
    if frames != [] {
      FrameIsRest(d, frames[0]);
      FramedEnds(d[|frames[0]|..], frames[1..]);
    }
  }

  lemma {:induction false} EndsFramed(d: seq<Byte>) returns (frames: seq<seq<Byte>>)
    requires Leftover(d) == 0
    ensures Framed(d, frames)
    decreases |d|
  {
    if d == [] {
      frames := [];
    } else {
      var f := d[..|d| - |Rest(d)|];
      assert f[..4] == d[..4];
      assert d[|f|..] == Rest(d);
      frames := EndsFramed(Rest(d));
      assert ([f] + frames)[1..] == frames;
      frames := [f] + frames;
    }
  }

  /** On arbitrary bytes the source's loop ends if and only if the bytes are a sequence of frames;
      otherwise it comes to one, two or three bytes and stays there. */
  lemma EndsIffFramed(d: seq<Byte>)
    ensures (exists k: nat :: After(d, k) == []) <==> exists frames :: Framed(d, frames)
    ensures (forall frames :: !Framed(d, frames)) ==> forall k: nat :: k >= |d| ==> 0 < |After(d, k)| < 4
    ensures (exists frames :: Framed(d, frames)) <==> Leftover(d) == 0
  {
    AfterEnough(d, |d|);
    if Leftover(d) == 0 {
      assert exists k: nat :: After(d, k) == [] by { assert After(d, |d|) == []; }
      var frames := EndsFramed(d);
      assert exists fs :: Framed(d, fs) by { assert Framed(d, frames); }
    } else {
      forall k: nat | k >= |d|
        ensures 0 < |After(d, k)| < 4
      {
        AfterEnough(d, k);
      }
      if k: nat :| After(d, k) == [] {
        EndsOnlyWithout(d, k);
      }
      if frames :| Framed(d, frames) {
        FramedEnds(d, frames);
      }
    }
  }

  // ---------- well-formed blobs ----------

  datatype Record = Record(id: nat, code: nat, value: nat)
  {
    predicate Valid() {
      id < 256 && code < 4 && value < Limit(code)
    }

    function Encode(): (s: seq<Byte>)
      requires Valid()
      ensures |s| == 4 + Width(code)
    {
      Bytes(4 * id + code, 4) + Bytes(value, Width(code))
    }
  }

  ghost predicate AllValid(rs: seq<Record>) {
    forall i :: 0 <= i < |rs| ==> rs[i].Valid()
  }

  function EncodeAll(rs: seq<Record>): seq<Byte>
    requires AllValid(rs)
  {
    if rs == [] then [] else rs[0].Encode() + EncodeAll(rs[1..])
  }

  /** Appending regroups: the first record stands in front of the rest. */
  lemma FirstRecord(rs: seq<Record>, t: seq<Byte>)
    requires AllValid(rs) && rs != []
    ensures EncodeAll(rs) + t == rs[0].Encode() + (EncodeAll(rs[1..]) + t)
    ensures ItemsOf(rs) == [Item(rs[0].id, rs[0].value)] + ItemsOf(rs[1..])
  {
    Regrouped(rs[0].Encode(), EncodeAll(rs[1..]), t);
  }

  lemma Regrouped<T>(a: seq<T>, b: seq<T>, c: seq<T>)
    ensures a + b + c == a + (b + c)
  {
  }

  function ItemsOf(rs: seq<Record>): seq<Item> {
    seq(|rs|, i requires 0 <= i < |rs| => Item(rs[i].id, rs[i].value))
  }

  /** The uninitialised variables hold zero, or no record needs them. */
  ghost predicate Clean(rs: seq<Record>, stale: nat -> nat) {
    (forall n :: stale(n) == 0) || forall i :: 0 <= i < |rs| ==> rs[i].code >= 2
  }

  lemma HeaderRoundTrip(r: Record, v: nat)
    requires r.Valid() && v == 4 * r.id + r.code
    ensures Word(Bytes(v, 4)) == v && HeaderId(v) == r.id && v % 4 == r.code
  {
    WordRoundTrip(v);
    HeaderFields(v, r.id, r.code);
  }

  lemma HeaderFields(v: nat, id: nat, code: nat)
    requires v == 4 * id + code && id < 256 && code < 4
    ensures HeaderId(v) == id && v % 4 == code
  {
    DivUnique(v, 4, id, code);
  }

  lemma ChunkRead(h: seq<Byte>, b: seq<Byte>, t: seq<Byte>, stale: nat -> nat)
    requires |h| == 4 && |b| == Width(Word(h) % 4)
    ensures Next(h + b + t, stale) == Item(HeaderId(Word(h)), Value(b, stale(|h + b + t|)))
    ensures Rest(h + b + t) == t
  {
    var d := h + b + t;
    assert d[..4] == h && d[4..4 + |b|] == b && d[4 + |b|..] == t;
  }

  lemma ValueRead(r: Record, stale: nat)
    requires r.Valid() && (r.code >= 2 || stale == 0)
    ensures Value(Bytes(r.value, Width(r.code)), stale) == r.value
  {
    var k := 8 * Width(r.code);
    WordOfBytes(r.value, Width(r.code));
    LimitIsPow2(r.code);
    Fits(r.value, k);
    ZeroBits(k);
  }

  /** One record in front of any bytes is read back and consumed. */
  lemma RecordRead(r: Record, t: seq<Byte>, stale: nat -> nat)
    requires r.Valid() && Clean([r], stale)
    ensures Next(r.Encode() + t, stale) == Item(r.id, r.value)
    ensures Rest(r.Encode() + t) == t
  {
    HeaderRoundTrip(r, 4 * r.id + r.code);
    ChunkRead(Bytes(4 * r.id + r.code, 4), Bytes(r.value, Width(r.code)), t, stale);
    StaleHarmless(r, stale, |r.Encode() + t|);
    ValueRead(r, stale(|r.Encode() + t|));
  }

  lemma StaleHarmless(r: Record, stale: nat -> nat, n: nat)
    requires Clean([r], stale)
    ensures r.code >= 2 || stale(n) == 0
  {
    assert [r][0] == r;
  }

  lemma RecordInFront(r: Record, t: seq<Byte>, stale: nat -> nat)
    requires r.Valid() && Clean([r], stale)
    ensures Items(r.Encode() + t, stale) == [Item(r.id, r.value)] + Items(t, stale)
    ensures Leftover(r.Encode() + t) == Leftover(t)
  {
    RecordRead(r, t, stale);
  }

  /** Decoding undoes encoding, record by record, whatever follows. */
  lemma {:induction false} RecordsRead(rs: seq<Record>, t: seq<Byte>, stale: nat -> nat)
    requires AllValid(rs) && Clean(rs, stale)
    ensures Items(EncodeAll(rs) + t, stale) == ItemsOf(rs) + Items(t, stale)
    ensures Leftover(EncodeAll(rs) + t) == Leftover(t)
  {
    if rs == [] {
      assert EncodeAll(rs) + t == t;
      assert ItemsOf(rs) + Items(t, stale) == Items(t, stale);
    } else {
      var u := EncodeAll(rs[1..]) + t;
      FirstRecord(rs, t);
      RecordInFront(rs[0], u, stale);
      RecordsRead(rs[1..], t, stale);
      Regrouped([Item(rs[0].id, rs[0].value)], ItemsOf(rs[1..]), Items(t, stale));
    }
  }

  /** A blob of well-formed records is decoded to the end, unless it announces more core groups than
      there are masks: the properties get their last values and the core mask is the or of the first
      `num_core_groups` masks. */
  lemma DecodesRecords(rs: seq<Record>, stale: nat -> nat, stack: seq<nat>)
    requires AllValid(rs) && Clean(rs, stale) && |stack| == MASKS
    ensures var o, groups := Decode(EncodeAll(rs), stale, stack), Last(ItemsOf(rs), NUM_CORE_GROUPS, 0);
      && (o.Done? <==> groups <= 16)
      && !o.Spins?
      && (o.Done? ==>
        && o.constants.gpuId == Last(ItemsOf(rs), RAW_GPU_ID, 0)
        && o.constants.numL2Slices == Last(ItemsOf(rs), NUM_L2_SLICES, 0)
        && o.constants.shaderCoreMask == MaskOf(ItemsOf(rs), stack, groups)
        && o.constants.numShaderCores == |Ones(o.constants.shaderCoreMask, 32)|)
  {
    RecordsRead(rs, [], stale);
    assert EncodeAll(rs) + [] == EncodeAll(rs);
    assert ItemsOf(rs) + [] == ItemsOf(rs);
    LowOnes(MaskOf(ItemsOf(rs), stack, if Last(ItemsOf(rs), NUM_CORE_GROUPS, 0) <= MASKS
                                       then Last(ItemsOf(rs), NUM_CORE_GROUPS, 0) else 0));
  }

  /** The one bits among the low `n` bits. */
  ghost function Ones(mask: nat, n: nat): set<int> {
    set k | 0 <= k < n && BitAt(mask, k) == 1
  }

  lemma LowOnes(mask: nat)
    ensures CountBits(mask % TWO_32, 32) == |Ones(mask, 32)|
  {
    Pow2Of32();
    HighIsQuotient(mask, 32);
    CountIsSize(mask % TWO_32, 32);
    forall k | 0 <= k < 32
      ensures BitAt(mask % TWO_32, k) == BitAt(mask, k)
    {
      BitOfLow(mask, 32, k);
    }
    assert Ones(mask, 32) == set k | 0 <= k < 32 && BitAt(mask % TWO_32, k) == 1;
  }

  lemma SameSize(a: set<int>, b: set<int>)
    requires a <= b
    ensures |a| == |b| <==> a == b
  {
    assert |b| == |a| + |b - a| by { assert a + (b - a) == b; }
  }

  /** Whatever bytes are decoded: the core count is the number of ones in the low half of the core mask,
      and the number of cores in the 64-bit mask if and only if no core is numbered above 31. */
  lemma CoresOfDecoded(d: seq<Byte>, stale: nat -> nat, stack: seq<nat>)
    requires |stack| == MASKS && Decode(d, stale, stack).Done?
    ensures var k := Decode(d, stale, stack).constants;
      && k.numShaderCores == |Ones(k.shaderCoreMask, 32)|
      && (k.numShaderCores == |Ones(k.shaderCoreMask, 64)| <==>
            forall core :: 32 <= core < 64 ==> BitAt(k.shaderCoreMask, core) == 0)
  {
    var mask := Decode(d, stale, stack).constants.shaderCoreMask;
    LowOnes(mask);
    SameSize(Ones(mask, 32), Ones(mask, 64));
    if Ones(mask, 32) == Ones(mask, 64) {
      forall core | 32 <= core < 64
        ensures BitAt(mask, core) == 0
      {
        assert core !in Ones(mask, 32);
      }
    }
  }

  // ---------- a blob byte by byte ----------

  /** A wide chunk in front of any bytes. */
  lemma {:induction false} WideChunk(id: nat, code: nat, h: seq<Byte>, b: seq<Byte>, t: seq<Byte>, stale: nat -> nat)
    requires id < 256 && 2 <= code < 4 && |h| == 4 && |b| == Width(code) && Word(h) == 4 * id + code
    ensures Items(h + b + t, stale) == [Item(id, Word(b))] + Items(t, stale)
    ensures Leftover(h + b + t) == Leftover(t)
  {
    HeaderFields(Word(h), id, code);
    ChunkRead(h, b, t, stale);
  }

  /** A 32-bit record byte by byte. */
  lemma {:induction false} IntChunk(id: nat, a: Byte, b: Byte, c: Byte, d: Byte, t: seq<Byte>, stale: nat -> nat)
    requires id < 256 && a + 256 * b == 4 * id + 2
    ensures Items([a, b, 0, 0, c, d, 0, 0] + t, stale) == [Item(id, c + 256 * d)] + Items(t, stale)
    ensures Leftover([a, b, 0, 0, c, d, 0, 0] + t) == Leftover(t)
  {
    FourBytes(a, b, 0, 0);
    FourBytes(c, d, 0, 0);
    WideChunk(id, 2, [a, b, 0, 0], [c, d, 0, 0], t, stale);
    assert [a, b, 0, 0] + [c, d, 0, 0] + t == [a, b, 0, 0, c, d, 0, 0] + t;
  }

  /** A 64-bit record with a small value. */
  lemma {:induction false} LongChunk(id: nat, a: Byte, b: Byte, c: Byte, t: seq<Byte>, stale: nat -> nat)
    requires id < 256 && a + 256 * b == 4 * id + 3
    ensures Items([a, b, 0, 0, c, 0, 0, 0, 0, 0, 0, 0] + t, stale) == [Item(id, c)] + Items(t, stale)
    ensures Leftover([a, b, 0, 0, c, 0, 0, 0, 0, 0, 0, 0] + t) == Leftover(t)
  {
    FourBytes(a, b, 0, 0);
    LowByteOnly([c, 0, 0, 0, 0, 0, 0, 0]);
    WideChunk(id, 3, [a, b, 0, 0], [c, 0, 0, 0, 0, 0, 0, 0], t, stale);
    assert [a, b, 0, 0] + [c, 0, 0, 0, 0, 0, 0, 0] + t == [a, b, 0, 0, c, 0, 0, 0, 0, 0, 0, 0] + t;
  }

  lemma {:induction false} AllZero(s: seq<Byte>)
    requires forall i :: 0 <= i < |s| ==> s[i] == 0
    ensures Word(s) == 0
  {
    if s != [] { AllZero(s[..|s| - 1]); }
  }

  lemma LowByteOnly(s: seq<Byte>)
    requires s != [] && forall i :: 1 <= i < |s| ==> s[i] == 0
    ensures Word(s) == s[0]
  {
    LowestFirst(s);
    AllZero(s[1..]);
  }

  lemma {:induction false} KnownConstants(items: seq<Item>, stack: seq<nat>)
    requires |stack| == MASKS && |items| == 4
    requires items[0] == Item(55, 513) && items[1] == Item(15, 3) && items[2] == Item(62, 1) && items[3] == Item(64, 3)
    ensures Constructed(items, stack) == Done(Constants(513, 3, 3, 2))
  {
    LastWins(items, 0, 0);
    LastWins(items, 1, 0);
    LastWins(items, 2, 0);
    LastWins(items, 3, stack[0]);
    assert MaskOf(items, stack, 1) == BitOr(0, 3) == 3;
    TwoOnes(32);
  }

  lemma {:induction false} TwoOnes(n: nat)
    requires n >= 2
    ensures CountBits(3, n) == 2
  {
    CountShift(3, n - 1);
    CountShift(1, n - 2);
    CountZero(n - 2);
  }

  /** A blob of 36 bytes: GPU id 513, 3 slices, one core group, whose mask is 3. */
  function KnownBytes(): seq<Byte> {
    [222, 0, 0, 0, 1, 2, 0, 0] + ([62, 0, 0, 0, 3, 0, 0, 0] + KnownGroup())
  }

  function KnownGroup(): seq<Byte> {
    [250, 0, 0, 0, 1, 0, 0, 0] + ([3, 1, 0, 0, 3, 0, 0, 0, 0, 0, 0, 0] + [])
  }

  lemma {:induction false} GroupItems(stale: nat -> nat)
    ensures Items(KnownGroup(), stale) == [Item(62, 1), Item(64, 3)] && Leftover(KnownGroup()) == 0
  {
    LongChunk(64, 3, 1, 3, [], stale);
    IntChunk(62, 250, 0, 1, 0, [3, 1, 0, 0, 3, 0, 0, 0, 0, 0, 0, 0] + [], stale);
  }

  lemma {:induction false} SlicesFirst(rest: seq<Byte>, stale: nat -> nat)
    ensures Items([62, 0, 0, 0, 3, 0, 0, 0] + rest, stale) == [Item(15, 3)] + Items(rest, stale)
    ensures Leftover([62, 0, 0, 0, 3, 0, 0, 0] + rest) == Leftover(rest)
  {
    IntChunk(15, 62, 0, 3, 0, rest, stale);
  }

  lemma {:induction false} GpuIdFirst(rest: seq<Byte>, stale: nat -> nat)
    ensures Items([222, 0, 0, 0, 1, 2, 0, 0] + rest, stale) == [Item(55, 513)] + Items(rest, stale)
    ensures Leftover([222, 0, 0, 0, 1, 2, 0, 0] + rest) == Leftover(rest)
  {
    IntChunk(55, 222, 0, 1, 2, rest, stale);
  }

  /** What is decoded from these bytes, whatever the uninitialised variables hold. */
  lemma {:induction false} KnownBlob(stale: nat -> nat, stack: seq<nat>)
    requires |stack| == MASKS
    ensures Decode(KnownBytes(), stale, stack) == Done(Constants(513, 3, 3, 2))
  {
    GroupItems(stale);
    SlicesFirst(KnownGroup(), stale);
    GpuIdFirst([62, 0, 0, 0, 3, 0, 0, 0] + KnownGroup(), stale);
    KnownConstants(Items(KnownBytes(), stale), stack);
  }

  /** A cut that leaves the decoder no fragment of a header: a multiple of four, or inside the last
      half of a 64-bit value exactly as many bytes as its first half, read as a header, asks for. */
  predicate SafeCut(r: Record, cut: nat) {
    if cut < 8 then cut % 4 == 0 else cut == 8 || Width(r.value % 4) == cut - 8
  }

  lemma CutValue(h: seq<Byte>, v: seq<Byte>, cut: nat)
    requires |h| == 4 && |v| == Width(Word(h) % 4) && cut < |h + v|
    ensures cut < 8 ==> Leftover((h + v)[..cut]) == cut % 4
    ensures cut >= 8 ==> |v| == 8
    ensures cut >= 8 ==> (Leftover((h + v)[..cut]) == 0 <==> cut == 8 || Width(Word(v[..4]) % 4) == cut - 8)
  {
    var t := (h + v)[..cut];
    if cut >= 4 {
      assert t[..4] == h;
      assert Rest(t) == t[4..] == v[..cut - 4];
      if cut >= 8 {
        var b := v[..cut - 4];
        assert b[..4] == v[..4];
        assert Leftover(t) == Leftover(b) == Leftover(Rest(b));
      }
    }
  }

  lemma HighByte(x: int, p: int)
    ensures x * (256 * p) == 64 * (x * p) * 4
  {
  }

  /** The two lowest bits of a number are those of its first byte. */
  lemma {:induction false} WordLowBits(s: seq<Byte>)
    requires s != []
    ensures Word(s) % 4 == s[0] % 4
  {
    var n := |s| - 1;
    if n == 0 {
      assert Word(s[..0]) == 0;
    } else {
      WordLowBits(s[..n]);
      Pow2Byte(n - 1);
      HighByte(s[n], Pow2(8 * (n - 1)));
      ModShift(Word(s[..n]), 4, 64 * (s[n] * Pow2(8 * (n - 1))));
    }
  }

  lemma {:induction false} FirstByte(v: nat, n: nat)
    requires n > 0
    ensures Bytes(v, n)[0] == v % 256
  {
    if n > 1 { FirstByte(v, n - 1); }
  }

  lemma FirstBits(v: nat, n: nat, m: nat)
    requires 0 < m <= n
    ensures Word(Bytes(v, n)[..m]) % 4 == v % 4
  {
    var s := Bytes(v, n)[..m];
    WordLowBits(s);
    FirstByte(v, n);
    LowTwoBits(v);
  }

  lemma LowTwoBits(v: nat)
    ensures v % 256 % 4 == v % 4
  {
    ModShift(v % 256, 4, 64 * (v / 256));
  }

  lemma CutRecord(r: Record, cut: nat)
    requires r.Valid() && cut < |r.Encode()|
    ensures Leftover(r.Encode()[..cut]) == 0 <==> SafeCut(r, cut)
  {
    HeaderRoundTrip(r, 4 * r.id + r.code);
    CutValue(Bytes(4 * r.id + r.code, 4), Bytes(r.value, Width(r.code)), cut);
    if cut >= 8 { FirstBits(r.value, Width(r.code), 4); }
  }

  /** A well-formed blob cut anywhere in its last record: the decoder comes to the end if and only if
      the cut is safe; otherwise it hangs. */
  lemma CutBlob(rs: seq<Record>, last: Record, cut: nat, stale: nat -> nat, stack: seq<nat>)
    requires AllValid(rs) && Clean(rs, stale) && last.Valid() && |stack| == MASKS
    requires cut < |last.Encode()|
    ensures Decode(EncodeAll(rs) + last.Encode()[..cut], stale, stack).Spins? <==> !SafeCut(last, cut)
  {
    RecordsRead(rs, last.Encode()[..cut], stale);
    CutRecord(last, cut);
  }

  /** A well-formed blob cut at or within its last header and its first four value bytes, where the cut
      is safe, decodes as if that record were not there. */
  lemma CutRecordIgnored(rs: seq<Record>, last: Record, cut: nat, stale: nat -> nat, stack: seq<nat>)
    requires AllValid(rs) && Clean(rs, stale) && last.Valid() && |stack| == MASKS
    requires cut <= 8 && cut < |last.Encode()| && SafeCut(last, cut)
    ensures Decode(EncodeAll(rs) + last.Encode()[..cut], stale, stack) == Decode(EncodeAll(rs), stale, stack)
  {
    var t := last.Encode()[..cut];
    RecordsRead(rs, t, stale);
    RecordsRead(rs, [], stale);
    assert EncodeAll(rs) + [] == EncodeAll(rs);
    NothingReported(last, cut, stale);
    NoIdLost(ItemsOf(rs), Items(t, stale), stack);
    CutRecord(last, cut);
  }

  ghost predicate OnlyZeros(items: seq<Item>) {
    forall i :: 0 <= i < |items| ==> items[i] == Item(0, 0)
  }

  lemma NothingReported(r: Record, cut: nat, stale: nat -> nat)
    requires r.Valid() && cut <= 8 && cut < |r.Encode()| && SafeCut(r, cut)
    ensures OnlyZeros(Items(r.Encode()[..cut], stale))
  {
    var h, v := Bytes(4 * r.id + r.code, 4), Bytes(r.value, Width(r.code));
    HeaderRoundTrip(r, 4 * r.id + r.code);
    var t := (h + v)[..cut];
    if cut >= 4 {
      assert t[..4] == h && Rest(t) == t[4..];
      assert Next(t, stale) == Item(0, 0);
      if cut == 8 {
        var b := t[4..];
        assert Next(b, stale) == Item(0, 0) && Rest(b) == [];
        assert Items(b, stale) == [Item(0, 0)] + Items(Rest(b), stale);
      }
      assert Items(t, stale) == [Item(0, 0)] + Items(Rest(t), stale);
    }
  }

  lemma {:induction false} LastOfZeros(items: seq<Item>, zeros: seq<Item>, id: nat, initial: nat)
    requires OnlyZeros(zeros) && id > 0
    ensures Last(items + zeros, id, initial) == Last(items, id, initial)
    decreases |zeros|
  {
    if zeros == [] {
      assert items + zeros == items;
    } else {
      var n := |zeros| - 1;
      assert (items + zeros)[..|items + zeros| - 1] == items + zeros[..n];
      LastOfZeros(items, zeros[..n], id, initial);
    }
  }

  lemma {:induction false} MaskOfZeros(items: seq<Item>, zeros: seq<Item>, stack: seq<nat>, n: nat)
    requires OnlyZeros(zeros) && n <= |stack|
    ensures MaskOf(items + zeros, stack, n) == MaskOf(items, stack, n)
  {
    if n > 0 {
      MaskOfZeros(items, zeros, stack, n - 1);
      LastOfZeros(items, zeros, CORE_GROUP_0 + n - 1, stack[n - 1]);
    }
  }

  lemma NoIdLost(items: seq<Item>, zeros: seq<Item>, stack: seq<nat>)
    requires OnlyZeros(zeros) && |stack| == MASKS
    ensures Constructed(items + zeros, stack) == Constructed(items + [], stack)
  {
    assert items + [] == items;
    LastOfZeros(items, zeros, NUM_CORE_GROUPS, 0);
    LastOfZeros(items, zeros, RAW_GPU_ID, 0);
    LastOfZeros(items, zeros, NUM_L2_SLICES, 0);
    var groups := Last(items, NUM_CORE_GROUPS, 0);
    if groups <= MASKS { MaskOfZeros(items, zeros, stack, groups); }
  }

  // ---------- the uninitialised variable of the narrow readers ----------

  /** Of the low `n` bits, every one bit of `a` is a one bit of `b`. */
  ghost predicate Covered(a: nat, b: nat, n: nat) {
    forall k :: 0 <= k < n && BitAt(a, k) == 1 ==> BitAt(b, k) == 1
  }

  /** An 8- or 16-bit record is read exactly if and only if every one bit that the uninitialised variable
      has in the record's width is a one bit of the value. */
  lemma NarrowRecordIff(r: Record, t: seq<Byte>, stale: nat -> nat)
    requires r.Valid() && r.code < 2
    ensures var d := r.Encode() + t;
      Next(d, stale).id == r.id && Rest(d) == t
      && (Next(d, stale).value == r.value <==> Covered(stale(|d|), r.value, 8 * Width(r.code)))
  {
    HeaderRoundTrip(r, 4 * r.id + r.code);
    ChunkRead(Bytes(4 * r.id + r.code, 4), Bytes(r.value, Width(r.code)), t, stale);
    NarrowValueIff(r, stale(|r.Encode() + t|));
  }

  lemma NarrowValueIff(r: Record, stale: nat)
    requires r.Valid() && r.code < 2
    ensures Value(Bytes(r.value, Width(r.code)), stale) == r.value <==> Covered(stale, r.value, 8 * Width(r.code))
  {
    var n := 8 * Width(r.code);
    WordOfBytes(r.value, Width(r.code));
    LimitIsPow2(r.code);
    Fits(r.value, n);
    Split(stale, n);
    OrKeepsIff(Low(stale, n), r.value, n);
    CoveredLow(stale, r.value, n);
  }

  lemma CoveredLow(a: nat, b: nat, n: nat)
    ensures Covered(Low(a, n), b, n) <==> Covered(a, b, n)
  {
    forall k | 0 <= k < n
      ensures BitAt(Low(a, n), k) == BitAt(a, k)
    {
      BitOfLow(a, n, k);
    }
  }

  /** Or-ing in `a` leaves `b` as it is if and only if `a` has no other one bits. */
  lemma OrKeepsIff(a: nat, b: nat, n: nat)
    requires a < Pow2(n)
    ensures BitOr(a, b) == b <==> Covered(a, b, n)
  {
    if BitOr(a, b) == b {
      forall k | 0 <= k < n && BitAt(a, k) == 1
        ensures BitAt(b, k) == 1
      {
        OrBits(a, b, k);
      }
    } else if Covered(a, b, n) {
      OrKeeps(a, b, n);
    }
  }

  lemma {:induction false} OrKeeps(a: nat, b: nat, n: nat)
    requires a < Pow2(n) && Covered(a, b, n)
    ensures BitOr(a, b) == b
  {
    if n > 0 {
      assert BitAt(a, 0) == 1 ==> BitAt(b, 0) == 1;
      forall k | 0 <= k < n - 1 && BitAt(a / 2, k) == 1
        ensures BitAt(b / 2, k) == 1
      {
        assert BitAt(a, k + 1) == 1 ==> BitAt(b, k + 1) == 1;
      }
      OrKeeps(a / 2, b / 2, n - 1);
      OrHalves(a, b);
    }
  }

  // ---------- which value counts ----------

  /** Without a record of the id the variable keeps what it starts with. */
  lemma {:induction false} LastAbsent(items: seq<Item>, id: nat, initial: nat)
    requires !Has(items, id)
    ensures Last(items, id, initial) == initial
  {
    if items != [] {
      var n := |items| - 1;
      assert items[n].id != id;
      assert forall i :: 0 <= i < n ==> items[..n][i] == items[i];
      LastAbsent(items[..n], id, initial);
    }
  }

  /** The last value of an id wins. */
  lemma {:induction false} LastWins(items: seq<Item>, k: nat, initial: nat)
    requires k < |items| && forall j :: k < j < |items| ==> items[j].id != items[k].id
    ensures Last(items, items[k].id, initial) == items[k].value
  {
    var n := |items| - 1;
    if k < n {
      LastWins(items[..n], k, initial);
    }
  }

  /** Bit by bit, the core mask is the union of the group masks. */
  lemma {:induction false} MaskIsUnion(items: seq<Item>, stack: seq<nat>, n: nat, bit: nat)
    requires n <= |stack|
    ensures BitAt(MaskOf(items, stack, n), bit) == 1
       <==> exists i :: 0 <= i < n && BitAt(Last(items, CORE_GROUP_0 + i, stack[i]), bit) == 1
  {
    if n == 0 {
      ZeroBits(bit);
    } else {
      MaskIsUnion(items, stack, n - 1, bit);
      OrBits(MaskOf(items, stack, n - 1), Last(items, CORE_GROUP_0 + n - 1, stack[n - 1]), bit);
    }
  }

  ghost predicate Has(items: seq<Item>, id: nat) {
    exists i :: 0 <= i < |items| && items[i].id == id
  }

  lemma {:induction false} LastIndependent(items: seq<Item>, id: nat, a: nat, b: nat)
    requires Has(items, id)
    ensures Last(items, id, a) == Last(items, id, b)
  {
    var n := |items| - 1;
    if items[n].id != id {
      var i :| 0 <= i < |items| && items[i].id == id;
      assert items[..n][i].id == id;
      LastIndependent(items[..n], id, a, b);
    }
  }

  /** With a record for every counted group the mask does not depend on the stack. */
  lemma {:induction false} MaskIndependent(items: seq<Item>, a: seq<nat>, b: seq<nat>, n: nat)
    requires n <= |a| && n <= |b|
    requires forall g :: CORE_GROUP_0 <= g < CORE_GROUP_0 + n ==> Has(items, g)
    ensures MaskOf(items, a, n) == MaskOf(items, b, n)
  {
    if n > 0 {
      MaskIndependent(items, a, b, n - 1);
      assert Has(items, CORE_GROUP_0 + n - 1);
      LastIndependent(items, CORE_GROUP_0 + n - 1, a[n - 1], b[n - 1]);
    }
  }

  lemma {:induction false} NoBits(x: nat, n: nat)
    requires x < Pow2(n) && CountBits(x, n) == 0
    ensures x == 0
  {
    if n > 0 {
      CountShift(x, n - 1);
      NoBits(x / 2, n - 1);
    }
  }

  /** The core count is taken from the low 32 bits of the 64-bit mask: it is the number of cores
      in the mask iff no core has a number above 31. */
  lemma CoreCountExact(mask: nat)
    requires mask < Pow2(64)
    ensures CountBits(mask % TWO_32, 32) == CountBits(mask, 64) <==> mask < TWO_32
  {
    Pow2Of32();
    CountSplit(mask, 32, 32);
    HighIsQuotient(mask, 32);
    HighFits(mask, 32, 32);
    if CountBits(High(mask, 32), 32) == 0 {
      NoBits(High(mask, 32), 32);
    }
    if mask < TWO_32 {
      Fits(mask, 32);
      CountZero(32);
    }
  }
}
