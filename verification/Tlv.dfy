/** The type-length-value codec of the pairing messages: values longer than 255 bytes travel in chunks. */
module Tlv {
  import opened Common

  const CHUNK: nat := 255

  datatype Entry = Entry(tag: byte, value: seq<byte>)

  /** One value, in chunks that are full except the last; an empty value is one empty chunk. */
  function EncodeEntry(tag: byte, value: seq<byte>): (r: seq<byte>)
    ensures |r| >= 2
    decreases |value|
  {
    if |value| <= CHUNK then [tag, |value|] + value
    else [tag, CHUNK] + value[..CHUNK] + EncodeEntry(tag, value[CHUNK..])
  }

  function Encode(es: seq<Entry>): seq<byte>
  {
    if es == [] then [] else Encode(es[..|es| - 1]) + EncodeEntry(es[|es| - 1].tag, es[|es| - 1].value)
  }

  /** An entry that the decoder would continue with a chunk of the same tag. */
  predicate Continues(last: Entry, tag: byte)
  {
    last.tag == tag && |last.value| % CHUNK == 0 && last.value != []
  }

  function AddChunk(es: seq<Entry>, tag: byte, chunk: seq<byte>): (r: seq<Entry>)
    ensures r != []
  {
    if es != [] && Continues(es[|es| - 1], tag)
    then es[..|es| - 1] + [Entry(tag, es[|es| - 1].value + chunk)]
    else es + [Entry(tag, chunk)]
  }

  /** A complete chunk at the front. */
  predicate HasChunk(data: seq<byte>)
  {
    |data| >= 2 && |data| >= 2 + data[1] as int
  }

  /** The entries after all chunks, starting from some; nothing when the data end inside a chunk. */
  function DecodeInto(es: seq<Entry>, data: seq<byte>): Option<seq<Entry>>
    decreases |data|
  {
    if data == [] then Some(es)
    else if !HasChunk(data) then None
    else
      var n := 2 + data[1] as int;
      DecodeInto(AddChunk(es, data[0], data[2..n]), data[n..])
  }

  function Decode(data: seq<byte>): Option<seq<Entry>>
  {
    DecodeInto([], data)
  }

  /** Entries one by one, each continuing the one before where the format cannot tell them apart. */
  function Merged(es: seq<Entry>): seq<Entry>
  {
    if es == [] then [] else AddChunk(Merged(es[..|es| - 1]), es[|es| - 1].tag, es[|es| - 1].value)
  }

  /** No entry of positive length divisible by 255 is followed by one with the same tag. */
  predicate Separate(es: seq<Entry>)
  {
    forall i :: 1 <= i < |es| ==> !Continues(es[i - 1], es[i].tag)
  }

  // ---------------------------------------------------------------------------------------------
  // Decoding what was encoded
  // ---------------------------------------------------------------------------------------------

  lemma ChunkStep(es: seq<Entry>, tag: byte, chunk: seq<byte>, rest: seq<byte>)
    requires |chunk| <= CHUNK
    ensures DecodeInto(es, [tag, |chunk|] + chunk + rest) == DecodeInto(AddChunk(es, tag, chunk), rest)
  {
    hide AddChunk;
    var data := [tag, |chunk|] + chunk + rest;
    assert data[2..2 + |chunk|] == chunk && data[2 + |chunk|..] == rest;
  }

  lemma OneChunkMore(n: nat)
    requires n % CHUNK == 0
    ensures (n + CHUNK) % CHUNK == 0
  {
  }

  /** A full chunk and then the rest of the value are the value. */
  lemma ChunkThenRest(es: seq<Entry>, tag: byte, value: seq<byte>)
    requires |value| > CHUNK
    ensures AddChunk(AddChunk(es, tag, value[..CHUNK]), tag, value[CHUNK..]) == AddChunk(es, tag, value)
  {
    assert value[..CHUNK] + value[CHUNK..] == value;
    if es != [] && Continues(es[|es| - 1], tag) {
      var last := es[|es| - 1].value;
      OneChunkMore(|last|);
      assert last + value[..CHUNK] + value[CHUNK..] == last + value;
    }
  }

  lemma {:induction false} EntryStep(es: seq<Entry>, tag: byte, value: seq<byte>, rest: seq<byte>)
    ensures DecodeInto(es, EncodeEntry(tag, value) + rest) == DecodeInto(AddChunk(es, tag, value), rest)
    decreases |value|
  {
    hide DecodeInto, AddChunk;
    if |value| <= CHUNK {
      ChunkStep(es, tag, value, rest);
    } else {
      var tail := EncodeEntry(tag, value[CHUNK..]) + rest;
      assert EncodeEntry(tag, value) + rest == [tag, CHUNK] + value[..CHUNK] + tail;
      ChunkStep(es, tag, value[..CHUNK], tail);
      EntryStep(AddChunk(es, tag, value[..CHUNK]), tag, value[CHUNK..], rest);
      ChunkThenRest(es, tag, value);
    }
  }

  lemma {:induction false} EntriesStep(es: seq<Entry>, rest: seq<byte>)
    ensures DecodeInto([], Encode(es) + rest) == DecodeInto(Merged(es), rest)
    decreases |es|
  {
    hide DecodeInto, AddChunk, EncodeEntry;
    if es == [] {
      assert [] + rest == rest;
    } else {
      var n := |es| - 1;
      var last := EncodeEntry(es[n].tag, es[n].value);
      assert Encode(es) + rest == Encode(es[..n]) + (last + rest);
      EntriesStep(es[..n], last + rest);
      EntryStep(Merged(es[..n]), es[n].tag, es[n].value, rest);
    }
  }

  /** Decoding an encoding gives the merged entries, always. */
  lemma DecodeEncode(es: seq<Entry>)
    ensures Decode(Encode(es)) == Some(Merged(es))
  {
    hide Merged, Encode;
    EntriesStep(es, []);
    assert Encode(es) + [] == Encode(es);
  }

  lemma {:induction false} MergedShorter(es: seq<Entry>)
    ensures |Merged(es)| <= |es|
    decreases |es|
  {
    if es == [] {
    } else {
      MergedShorter(es[..|es| - 1]);
    }
  }

  /** One more entry is kept as it is exactly when those before it were and it continues none of them. */
  lemma AddedAsIs(merged: seq<Entry>, es: seq<Entry>, e: Entry)
    requires |merged| <= |es|
    ensures AddChunk(merged, e.tag, e.value) == es + [e]
       <==> merged == es && (es != [] ==> !Continues(es[|es| - 1], e.tag))
  {
    hide Continues;
    var added := AddChunk(merged, e.tag, e.value);
    assert (es + [e])[..|es|] == es;
    if added == es + [e] {
      assert |added| == |merged| + 1;
      assert added[..|merged|] == merged;
    }
  }

  /** Merging changes nothing exactly when the entries are separate. */
  lemma {:induction false} MergedIsSame(es: seq<Entry>)
    ensures Merged(es) == es <==> Separate(es)
    decreases |es|
  {
    hide AddChunk, Separate, Continues;
    if es == [] {
      NoneSeparate();
    } else {
      var init, e := es[..|es| - 1], es[|es| - 1];
      assert init + [e] == es;
      MergedIsSame(init);
      MergedShorter(init);
      AddedAsIs(Merged(init), init, e);
      SeparateSnoc(init, e);
    }
  }

  lemma NoneSeparate()
    ensures Separate([])
  {
  }

  lemma SeparateSnoc(es: seq<Entry>, e: Entry)
    ensures Separate(es + [e]) <==> Separate(es) && (es != [] ==> !Continues(es[|es| - 1], e.tag))
  {
    hide Continues;
    var all := es + [e];
    assert forall i :: 0 <= i < |es| ==> all[i] == es[i];
    if es != [] {
      assert all[|es| - 1] == es[|es| - 1] && all[|es|] == e;
    }
  }

  /** The codec is lossless exactly on separate entries. */
  lemma RoundTripExactly(es: seq<Entry>)
    ensures Decode(Encode(es)) == Some(es) <==> Separate(es)
  {
    DecodeEncode(es);
    MergedIsSame(es);
  }

  /** Two entries that come back as one. */
  lemma NotAlwaysRoundTrip()
    ensures var es := [Entry(3, seq(CHUNK, _ => 0)), Entry(3, [1])];
            Decode(Encode(es)) == Some([Entry(3, seq(CHUNK, _ => 0) + [1])])
  {
    hide Decode, Encode;
    var first: Entry := Entry(3, seq(CHUNK, _ => 0));
    var es := [first, Entry(3, [1])];
    DecodeEncode(es);
    assert es[..1] == [first] && [first][..0] == [];
    assert Merged([first]) == [first];
    assert [first][..0] + [Entry(3, first.value + [1])] == [Entry(3, first.value + [1])];
  }

  // ---------------------------------------------------------------------------------------------
  // Encoding what was decoded
  // ---------------------------------------------------------------------------------------------

  lemma AddChunkSeparate(es: seq<Entry>, tag: byte, chunk: seq<byte>)
    requires Separate(es)
    ensures Separate(AddChunk(es, tag, chunk))
  {
    hide Continues;
    if es != [] && Continues(es[|es| - 1], tag) {
      ContinuesTag(es[|es| - 1], tag);
      var init := es[..|es| - 1];
      assert init + [es[|es| - 1]] == es;
      SeparateSnoc(init, es[|es| - 1]);
      SeparateSnoc(init, Entry(tag, es[|es| - 1].value + chunk));
    } else {
      SeparateSnoc(es, Entry(tag, chunk));
    }
  }

  lemma ContinuesTag(e: Entry, tag: byte)
    requires Continues(e, tag)
    ensures e.tag == tag
  {
  }

  lemma {:induction false} DecodedSeparate(es: seq<Entry>, data: seq<byte>)
    requires Separate(es) && DecodeInto(es, data).Some?
    ensures Separate(DecodeInto(es, data).value)
    decreases |data|
  {
    hide Separate, AddChunk;
    if data == [] {
    } else {
      var n := 2 + data[1] as int;
      AddChunkSeparate(es, data[0], data[2..n]);
      DecodedSeparate(AddChunk(es, data[0], data[2..n]), data[n..]);
    }
  }

  /** What was decoded once survives any number of further round trips. */
  lemma DecodeStable(data: seq<byte>)
    requires Decode(data).Some?
    ensures Separate(Decode(data).value) && Decode(Encode(Decode(data).value)) == Decode(data)
  {
    hide DecodeInto, Encode;
    DecodedSeparate([], data);
    RoundTripExactly(Decode(data).value);
  }

  // ---------------------------------------------------------------------------------------------
  // Lookups
  // ---------------------------------------------------------------------------------------------

  predicate NoneBefore(es: seq<Entry>, i: nat, tag: byte)
    requires i <= |es|
  {
    forall j :: 0 <= j < i ==> es[j].tag != tag
  }

  /** The first value with a tag. */
  function Get(es: seq<Entry>, tag: byte): (r: Option<seq<byte>>)
    ensures r == None <==> forall i :: 0 <= i < |es| ==> es[i].tag != tag
    ensures r.Some? ==> exists i :: 0 <= i < |es| && es[i] == Entry(tag, r.value) && NoneBefore(es, i, tag)
    decreases |es|
  {
    if es == [] then None
    else if es[0].tag == tag then Some(es[0].value)
    else
      var r := Get(es[1..], tag);
      assert forall i :: 1 <= i < |es| ==> es[i] == es[1..][i - 1];
      assert r.Some? ==> exists i :: 1 <= i < |es| && es[i] == Entry(tag, r.value) && NoneBefore(es, i, tag) by {
        if r.Some? {
          var i :| 0 <= i < |es[1..]| && es[1..][i] == Entry(tag, r.value) && NoneBefore(es[1..], i, tag);
          assert es[i + 1] == Entry(tag, r.value);
          assert forall j :: 1 <= j < i + 1 ==> es[j].tag == es[1..][j - 1].tag;
        }
      }
      r
  }

  /** A message whose tags are all different comes back as it is. */
  lemma DistinctTags(es: seq<Entry>)
    requires forall i, j :: 0 <= i < j < |es| ==> es[i].tag != es[j].tag
    ensures Decode(Encode(es)) == Some(es)
  {
    hide Decode, Encode;
    RoundTripExactly(es);
  }

  // ---------------------------------------------------------------------------------------------
  // The object
  // ---------------------------------------------------------------------------------------------

  class TlvValues {
    var entries: seq<Entry>

    constructor ()
      ensures entries == []
    {
      entries := [];
    }

    method Add(tag: byte, value: seq<byte>)
      modifies this
      ensures entries == old(entries) + [Entry(tag, value)]
    {
      entries := entries + [Entry(tag, value)];
    }

    method EncodeBytes() returns (buf: seq<byte>)
      ensures buf == Encode(entries)
    {
      hide EncodeEntry;
      buf := [];
      for i := 0 to |entries|
        invariant buf == Encode(entries[..i])
      {
        assert entries[..i + 1][..i] == entries[..i];
        var one := EncodeValue(entries[i].tag, entries[i].value);
        buf := buf + one;
      }
      assert entries[..|entries|] == entries;
    }

    /** The chunks of one value. */
    static method EncodeValue(tag: byte, value: seq<byte>) returns (buf: seq<byte>)
      ensures buf == EncodeEntry(tag, value)
    {
      if value == [] {
        return [tag, 0];
      }
      buf := [];
      var rest: seq<byte> := value;
      while |rest| > CHUNK
        invariant rest != [] && buf + EncodeEntry(tag, rest) == EncodeEntry(tag, value)
        decreases |rest|
      {
        assert buf + ([tag, CHUNK] + rest[..CHUNK] + EncodeEntry(tag, rest[CHUNK..]))
            == buf + [tag, CHUNK] + rest[..CHUNK] + EncodeEntry(tag, rest[CHUNK..]);
        buf := buf + [tag, CHUNK] + rest[..CHUNK];
        rest := rest[CHUNK..];
      }
      assert buf + ([tag, |rest|] + rest) == buf + [tag, |rest|] + rest;
      buf := buf + [tag, |rest|] + rest;
    }

    /** Entries from bytes; nothing when the bytes end inside a chunk. */
    static method DecodeBytes(data: seq<byte>) returns (ok: bool, values: TlvValues)
      ensures fresh(values)
      ensures ok == Decode(data).Some? && (ok ==> values.entries == Decode(data).value)
    {
      hide DecodeInto;
      values := new TlvValues();
      var i := 0;
      assert data[0..] == data;
      while i < |data|
        invariant 0 <= i <= |data| && DecodeInto(values.entries, data[i..]) == Decode(data)
      {
        DecodeCases(values.entries, data[i..]);
        if i + 1 >= |data| {
          return false, values;
        }
        var tag, len := data[i], data[i + 1] as int;
        if i + 2 + len > |data| {
          return false, values;
        }
        var chunk := data[i + 2..i + 2 + len];
        Slices(data, i, 2 + len);
        values.Append(tag, chunk);
        i := i + 2 + len;
      }
      DecodeCases(values.entries, data[i..]);
      ok := true;
    }

    /** A chunk continues the last entry or starts a new one. */
    method Append(tag: byte, chunk: seq<byte>)
      modifies this
      ensures entries == AddChunk(old(entries), tag, chunk)
    {
      if entries != [] && Continues(entries[|entries| - 1], tag) {
        var last := |entries| - 1;
        entries := entries[last := Entry(tag, entries[last].value + chunk)];
      } else {
        entries := entries + [Entry(tag, chunk)];
      }
    }
  }

  lemma Slices(data: seq<byte>, i: nat, n: nat)
    requires i + n <= |data| && n >= 2
    ensures data[i..][2..n] == data[i + 2..i + n] && data[i..][n..] == data[i + n..]
  {
  }

  lemma DecodeCases(es: seq<Entry>, data: seq<byte>)
    ensures data == [] ==> DecodeInto(es, data) == Some(es)
    ensures data != [] && !HasChunk(data) ==> DecodeInto(es, data) == None
    ensures HasChunk(data) ==> var n := 2 + data[1] as int;
              DecodeInto(es, data) == DecodeInto(AddChunk(es, data[0], data[2..n]), data[n..])
  {
  }
}
