/**
 * The conversions every compiler repeats inline: optional fields that become
 * attributes only when present, tag maps that become objects, string lists
 * that become arrays, and `Filter` records that become nested `filter` blocks.
 *
 * A compiler's output attributes are described here as a list of slots, one
 * per attribute it may emit, in the order its code appends them; `Emitted`
 * keeps the filled slots.  The lemmas about `Emitted` state once what each
 * compiler promises: a key is present exactly when its field is `Some`, with
 * that field's value, in a fixed order, and nothing else appears.
 */
module Fields {
  import opened Wrappers
  import opened Hcl

  /** An attribute a compiler may append: its key and, when it is appended, its value. */
  datatype Slot = Slot(key: string, value: Option<Expr>)

  /** The attributes one slot contributes: none, or one. */
  function Piece(s: Slot): seq<Attribute> {
    if s.value.Some? then [(s.key, s.value.value)] else []
  }

  /** The attributes a list of slots yields: one per filled slot, in slot order. */
  function Emitted(slots: seq<Slot>): (attrs: seq<Attribute>)
    ensures |attrs| <= |slots|
  {
    if slots == [] then [] else Piece(slots[0]) + Emitted(slots[1..])
  }

  /** The keys of a list of slots, in order. */
  function SlotKeys(slots: seq<Slot>): (ks: seq<string>)
    ensures |ks| == |slots|
    ensures forall i | 0 <= i < |slots| :: ks[i] == slots[i].key
  {
    seq(|slots|, i requires 0 <= i < |slots| => slots[i].key)
  }

  /** An optional string field as the attribute value it yields, if any (`Expression::String`). */
  function OptStr(field: Option<string>): (v: Option<Expr>)
    ensures v.Some? <==> field.Some?
    ensures v.Some? ==> v.value == Str(field.value)
  {
    if field.Some? then Some(Str(field.value)) else None
  }

  /** An optional boolean field as the attribute value it yields, if any (`Expression::Bool`). */
  function OptBool(field: Option<bool>): (v: Option<Expr>)
    ensures v.Some? <==> field.Some?
    ensures v.Some? ==> v.value == Bool(field.value)
  {
    if field.Some? then Some(Bool(field.value)) else None
  }

  /** An optional tag map as the attribute value it yields, if any. */
  function OptTags(field: Option<map<string, string>>): (v: Option<Expr>)
    ensures v.Some? <==> field.Some?
    ensures v.Some? ==> v.value == TagsExpr(field.value)
    ensures v.Some? ==> v.value.Obj? && TagsOf(v.value) == field.value
  {
    if field.Some? then TagsRoundTrip(field.value); Some(TagsExpr(field.value)) else None
  }

  /** A slot for an optional string field. */
  function StrSlot(key: string, field: Option<string>): Slot {
    Slot(key, OptStr(field))
  }

  /** A slot for an optional boolean field. */
  function BoolSlot(key: string, field: Option<bool>): Slot {
    Slot(key, OptBool(field))
  }

  /** The slot for an optional tag map. */
  function TagsSlot(field: Option<map<string, string>>): Slot {
    Slot("tags", OptTags(field))
  }

  /**
   * One optional attribute step of a compiler: when the slot is filled, its
   * attribute is appended to the builder; otherwise the builder is unchanged.
   */
  method AppendSlot(block: Builder, s: Slot) returns (r: Builder)
    ensures r == block.(attrs := block.attrs + Piece(s))
  {
    r := block;
    if s.value.Some? {
      r := block.AddAttribute(s.key, s.value.value);
    }
  }

  /** The tag conversion: an object over exactly the map's keys, each value a string. */
  function TagsExpr(tags: map<string, string>): (e: Expr)
    ensures e.Obj? && e.fields.Keys == tags.Keys
    ensures forall k | k in tags :: e.fields[k] == Str(tags[k])
  {
    Obj(map k | k in tags :: Str(tags[k]))
  }

  /** Reads an object of strings back as a tag map. */
  function TagsOf(e: Expr): map<string, string>
    requires e.Obj?
  {
    map k | k in e.fields && e.fields[k].Str? :: e.fields[k].text
  }

  lemma TagsRoundTrip(tags: map<string, string>)
    ensures TagsOf(TagsExpr(tags)) == tags
  {
  }

  /** An empty tag map becomes an empty object. */
  lemma EmptyTags()
    ensures TagsExpr(map[]) == Obj(map[])
  {
    assert TagsExpr(map[]).fields.Keys == {};
  }

  /** A list of strings as an array of string expressions, order kept. */
  function StringArray(xs: seq<string>): (e: Expr)
    ensures e.Arr? && |e.items| == |xs|
    ensures forall i | 0 <= i < |xs| :: e.items[i] == Str(xs[i])
  {
    Arr(seq(|xs|, i requires 0 <= i < |xs| => Str(xs[i])))
  }

  /** Reads an array of string expressions back as a list of strings. */
  function StringsOf(items: seq<Expr>): seq<string>
  {
    if items == [] then []
    else [if items[0].Str? then items[0].text else ""] + StringsOf(items[1..])
  }

  lemma {:induction false} StringArrayRoundTrip(xs: seq<string>)
    ensures StringsOf(StringArray(xs).items) == xs
    decreases |xs|
  {
    if xs != [] {
      StringArrayRoundTrip(xs[1..]);
      assert StringArray(xs).items[1..] == StringArray(xs[1..]).items;
    }
  }

  /** A `name`/`values` filter of a data source. */
  datatype Filter = Filter(name: string, values: seq<string>)

  /** One filter as a nested `filter` block: `name`, then `values`. */
  function FilterBlock(f: Filter): Block {
    NewBuilder("filter")
      .AddAttribute("name", Str(f.name))
      .AddAttribute("values", StringArray(f.values))
      .Build()
  }

  /** Reads a nested `filter` block back as a filter, if it has that shape. */
  function FilterOf(b: Block): Option<Filter> {
    if b.blockType == "filter" && b.labels == [] && b.blocks == [] && |b.attrs| == 2
       && b.attrs[0].0 == "name" && b.attrs[0].1.Str?
       && b.attrs[1].0 == "values" && b.attrs[1].1.Arr?
    then Some(Filter(b.attrs[0].1.text, StringsOf(b.attrs[1].1.items)))
    else None
  }

  /** A filter block has exactly the two attributes and loses nothing of the filter. */
  lemma FilterRoundTrip(f: Filter)
    ensures FilterBlock(f).attrs == [("name", Str(f.name)), ("values", StringArray(f.values))]
    ensures Keys(FilterBlock(f).attrs) == ["name", "values"] && FilterBlock(f).blocks == []
    ensures FilterOf(FilterBlock(f)) == Some(f)
  {
    var b := FilterBlock(f);
    assert b.attrs == [("name", Str(f.name)), ("values", StringArray(f.values))];
    assert Keys(b.attrs) == ["name", "values"];
    StringArrayRoundTrip(f.values);
  }

  /** The filter conversion: one `filter` block per filter, in order; none without filters. */
  function FilterBlocks(filters: Option<seq<Filter>>): (bs: seq<Block>)
    ensures filters.None? ==> bs == []
    ensures filters.Some? ==> |bs| == |filters.value|
    ensures filters.Some? ==> forall i | 0 <= i < |bs| :: bs[i] == FilterBlock(filters.value[i])
    ensures filters.Some? ==> forall i | 0 <= i < |bs| :: FilterOf(bs[i]) == Some(filters.value[i])
  {
    if filters.None? then []
    else
      var fs := filters.value;
      FilterBlocksRoundTrip(fs);
      seq(|fs|, i requires 0 <= i < |fs| => FilterBlock(fs[i]))
  }

  lemma FilterBlocksRoundTrip(fs: seq<Filter>)
    ensures forall i | 0 <= i < |fs| :: FilterOf(FilterBlock(fs[i])) == Some(fs[i])
  {
    forall i | 0 <= i < |fs|
      ensures FilterOf(FilterBlock(fs[i])) == Some(fs[i])
    {
      FilterRoundTrip(fs[i]);
    }
  }

  // ---------------------------------------------------------------------------
  // What `Emitted` promises

  /** Appending one more slot appends its piece: the step a compiler takes per field. */
  lemma {:induction false} EmittedStep(slots: seq<Slot>, k: nat)
    requires k < |slots|
    ensures Emitted(slots[..k + 1]) == Emitted(slots[..k]) + Piece(slots[k])
    decreases k
  {
    if k > 0 {
      EmittedStep(slots[1..], k - 1);
      assert slots[..k + 1][1..] == slots[1..][..k];
      assert slots[..k][1..] == slots[1..][..k - 1];
    } else {
      assert slots[..1][1..] == [];
    }
  }

  /**
   * The attributes the first `k` slots yield, grown one slot at a time the
   * way a compiler appends them.
   */
  function EmittedUpTo(slots: seq<Slot>, k: nat): (attrs: seq<Attribute>)
    ensures |attrs| <= k
  {
    if k == 0 || |slots| < k then [] else EmittedUpTo(slots, k - 1) + Piece(slots[k - 1])
  }

  /** Growing the attributes slot by slot ends in what the whole prefix yields. */
  lemma {:induction false} EmittedUpToPrefix(slots: seq<Slot>, k: nat)
    requires k <= |slots|
    ensures EmittedUpTo(slots, k) == Emitted(slots[..k])
  {
    if k == 0 {
      assert slots[..0] == [];
    } else {
      EmittedUpToPrefix(slots, k - 1);
      EmittedStep(slots, k - 1);
    }
  }

  /** After the last slot, the attributes grown slot by slot are exactly `Emitted`. */
  lemma EmittedUpToAll(slots: seq<Slot>)
    ensures EmittedUpTo(slots, |slots|) == Emitted(slots)
  {
    EmittedUpToPrefix(slots, |slots|);
    assert slots[..|slots|] == slots;
  }

  /** With distinct keys, every slot's key maps to exactly that slot's value. */
  lemma {:induction false} EmittedLookup(slots: seq<Slot>, i: nat)
    requires Distinct(SlotKeys(slots)) && i < |slots|
    ensures Get(Emitted(slots), slots[i].key) == slots[i].value
    decreases i
  {
    var head := Piece(slots[0]);
    var rest := Emitted(slots[1..]);
    GetAppend(head, rest, slots[i].key);
    if i > 0 {
      assert SlotKeys(slots[1..]) == SlotKeys(slots)[1..];
      EmittedLookup(slots[1..], i - 1);
    } else {
      EmittedMissing(slots[1..], slots[0].key);
    }
  }

  /**
   * A compiler's slot table with the given distinct keys: the value under
   * each key is that slot's value (absent when the slot is empty).
   */
  lemma SlotValue(slots: seq<Slot>, keys: seq<string>, i: nat)
    requires i < |slots| && SlotKeys(slots) == keys && Distinct(keys)
    ensures Get(Emitted(slots), slots[i].key) == slots[i].value
  {
    EmittedLookup(slots, i);
  }

  /** With distinct slot keys, the emitted keys are distinct and follow the slot order. */
  lemma SlotOrder(slots: seq<Slot>, keys: seq<string>)
    requires SlotKeys(slots) == keys && Distinct(keys)
    ensures Subsequence(Keys(Emitted(slots)), keys) && Distinct(Keys(Emitted(slots)))
  {
    EmittedOrder(slots);
  }

  /** A key no slot names never appears. */
  lemma {:induction false} EmittedMissing(slots: seq<Slot>, key: string)
    requires key !in SlotKeys(slots)
    ensures Get(Emitted(slots), key) == None
    decreases |slots|
  {
    if slots != [] {
      assert SlotKeys(slots) == [slots[0].key] + SlotKeys(slots[1..]);
      EmittedMissing(slots[1..], key);
      GetAppend(Piece(slots[0]), Emitted(slots[1..]), key);
    }
  }

  /** The emitted keys follow the slot order, and repeat nothing the slots do not repeat. */
  lemma EmittedOrder(slots: seq<Slot>)
    ensures Subsequence(Keys(Emitted(slots)), SlotKeys(slots))
    ensures Distinct(SlotKeys(slots)) ==> Distinct(Keys(Emitted(slots)))
  {
    EmittedSubsequence(slots);
    if Distinct(SlotKeys(slots)) {
      EmittedDistinct(slots);
    }
  }

  lemma {:induction false} EmittedSubsequence(slots: seq<Slot>)
    ensures Subsequence(Keys(Emitted(slots)), SlotKeys(slots))
    decreases |slots|
  {
    if slots != [] {
      var rest := slots[1..];
      EmittedSubsequence(rest);
      KeysAppend(Piece(slots[0]), Emitted(rest));
      assert SlotKeys(slots) == [slots[0].key] + SlotKeys(rest);
      if slots[0].value.Some? {
        assert Keys(Emitted(slots)) == [slots[0].key] + Keys(Emitted(rest));
      } else {
        assert Keys(Emitted(slots)) == Keys(Emitted(rest));
        SubsequenceSkip(Keys(Emitted(rest)), SlotKeys(rest), slots[0].key);
      }
    }
  }

  lemma {:induction false} EmittedDistinct(slots: seq<Slot>)
    requires Distinct(SlotKeys(slots))
    ensures Distinct(Keys(Emitted(slots)))
    decreases |slots|
  {
    if slots != [] {
      var rest := slots[1..];
      assert SlotKeys(rest) == SlotKeys(slots)[1..];
      EmittedDistinct(rest);
      KeysAppend(Piece(slots[0]), Emitted(rest));
      if slots[0].value.Some? {
        var ks := Keys(Emitted(rest));
        EmittedSubsequence(rest);
        SubsequenceMembers(ks, SlotKeys(rest));
        assert slots[0].key !in SlotKeys(rest);
        assert Keys(Emitted(slots)) == [slots[0].key] + ks;
        DistinctCons(slots[0].key, ks);
      } else {
        assert Keys(Emitted(slots)) == Keys(Emitted(rest));
      }
    }
  }

  lemma DistinctCons(k: string, ks: seq<string>)
    requires Distinct(ks) && k !in ks
    ensures Distinct([k] + ks)
  {
    var all := [k] + ks;
    forall i, j | 0 <= i < j < |all|
      ensures all[i] != all[j]
    {
      if i == 0 {
        assert all[j] == ks[j - 1];
      } else {
        assert all[i] == ks[i - 1] && all[j] == ks[j - 1];
      }
    }
  }

  /** When the first k slots are all filled, they open the output, in order. */
  lemma {:induction false} EmittedLeading(slots: seq<Slot>, k: nat)
    requires k <= |slots|
    requires forall i | 0 <= i < k :: slots[i].value.Some?
    ensures k <= |Emitted(slots)|
    ensures forall i | 0 <= i < k :: Emitted(slots)[i] == (slots[i].key, slots[i].value.value)
    decreases k
  {
    if k > 0 {
      EmittedLeading(slots[1..], k - 1);
    }
  }

  /** When no slot is filled nothing is emitted. */
  lemma {:induction false} EmittedNone(slots: seq<Slot>)
    requires forall i | 0 <= i < |slots| :: slots[i].value.None?
    ensures Emitted(slots) == []
    decreases |slots|
  {
    if slots != [] {
      EmittedNone(slots[1..]);
    }
  }

  // ---------------------------------------------------------------------------
  // Helpers about keys and lookups

  lemma {:induction false} GetAppend(a: seq<Attribute>, b: seq<Attribute>, key: string)
    ensures Get(a + b, key) == if Get(a, key).Some? then Get(a, key) else Get(b, key)
    decreases |a|
  {
    if a == [] {
      assert a + b == b;
    } else {
      assert (a + b)[0] == a[0];
      if a[0].0 != key {
        assert (a + b)[1..] == a[1..] + b;
        GetAppend(a[1..], b, key);
      }
    }
  }

  lemma KeysAppend(a: seq<Attribute>, b: seq<Attribute>)
    ensures Keys(a + b) == Keys(a) + Keys(b)
  {
  }

  lemma {:induction false} SubsequenceSkip(xs: seq<string>, ys: seq<string>, y: string)
    requires Subsequence(xs, ys)
    ensures Subsequence(xs, [y] + ys)
    decreases |ys|, 1
  {
    assert ([y] + ys)[1..] == ys;
    if xs != [] && xs[0] == y {
      SubsequenceTail(xs, ys);
    }
  }

  lemma {:induction false} SubsequenceTail(xs: seq<string>, ys: seq<string>)
    requires xs != [] && Subsequence(xs, ys)
    ensures Subsequence(xs[1..], ys)
    decreases |ys|, 0
  {
    assert [ys[0]] + ys[1..] == ys;
    if xs[0] != ys[0] {
      SubsequenceTail(xs, ys[1..]);
    }
    SubsequenceSkip(xs[1..], ys[1..], ys[0]);
  }

  lemma {:induction false} SubsequenceMembers(xs: seq<string>, ys: seq<string>)
    requires Subsequence(xs, ys)
    ensures forall x | x in xs :: x in ys
    decreases |ys|
  {
    if xs != [] {
      assert ys == [ys[0]] + ys[1..];
      if xs[0] == ys[0] {
        SubsequenceMembers(xs[1..], ys[1..]);
        assert xs == [xs[0]] + xs[1..];
      } else {
        SubsequenceMembers(xs, ys[1..]);
      }
    }
  }
}
