/** Lists of strings in tensor_coding.cc: the lengths as varints, then the characters. */
module StringList {
  import opened Basics
  import opened Varint

  function Concat(strings: seq<Bytes>): Bytes {
    if strings == [] then [] else Concat(strings[..|strings| - 1]) + strings[|strings| - 1]
  }

  /** The lengths, as 32-bit varints: a longer length is stored modulo 2^32. */
  function Sizes(strings: seq<Bytes>): Bytes {
    if strings == [] then []
    else Sizes(strings[..|strings| - 1]) + Encoded(|strings[|strings| - 1]| % TWO_32)
  }

  function EncodedList(strings: seq<Bytes>): Bytes {
    Sizes(strings) + Concat(strings)
  }

  /** Reads n lengths; the result is the lengths and what follows them. */
  function ReadSizes(src: Bytes, n: nat): (r: Option<(seq<nat>, Bytes)>)
    ensures r.Some? ==> |r.value.0| == n && |r.value.1| <= |src|
  {
    if n == 0 then Some(([], src))
    else match Decoded(src, 5, TWO_32)
      case None => None
      case Some((size, used)) =>
        match ReadSizes(src[used..], n - 1)
        case None => None
        case Some((sizes, rest)) => Some(([size] + sizes, rest))
  }

  function Sum(sizes: seq<nat>): nat {
    if sizes == [] then 0 else sizes[0] + Sum(sizes[1..])
  }

  function Split(data: Bytes, sizes: seq<nat>): (r: seq<Bytes>)
    requires Sum(sizes) == |data|
    ensures |r| == |sizes|
  {
    if sizes == [] then [] else [data[..sizes[0]]] + Split(data[sizes[0]..], sizes[1..])
  }

  function DecodedList(src: Bytes, n: nat): Option<seq<Bytes>> {
    match ReadSizes(src, n)
    case None => None
    case Some((sizes, rest)) => if Sum(sizes) == |rest| then Some(Split(rest, sizes)) else None
  }

  /** All the lengths come first, in the order of the strings, then all the characters. */
  lemma TwoStrings(a: Bytes, b: Bytes)
    requires |a| < 128 && |b| < 128
    ensures EncodedList([a, b]) == [|a|, |b|] + a + b && EncodedList([]) == []
  {
    var s := [a, b];
    var one := s[..1];
    assert one == [a] && one[..0] == [];
    assert Sizes([a]) == [|a|] && Concat([a]) == a;
    assert Sizes(s) == [|a|] + [|b|] && Concat(s) == a + b;
    assert [|a|] + [|b|] == [|a|, |b|] && [|a|, |b|] + (a + b) == [|a|, |b|] + a + b;
  }

  // ---------------------------------------------------------------- the functions

  method EncodeStringList(strings: seq<Bytes>) returns (out: Bytes)
    ensures out == EncodedList(strings)
  {
    out := [];
    var i := 0;
    while i < |strings|
      invariant i <= |strings| && out == Sizes(strings[..i])
    {
      assert strings[..i + 1][..i] == strings[..i];
      out := PutVarint32(out, |strings[i]| % TWO_32);
      i := i + 1;
    }
    assert strings[..i] == strings;
    i := 0;
    while i < |strings|
      invariant i <= |strings| && out == Sizes(strings) + Concat(strings[..i])
    {
      assert strings[..i + 1][..i] == strings[..i];
      out := out + strings[i];
      i := i + 1;
    }
    assert strings[..i] == strings;
  }

  lemma ReadOneMore(src: Bytes, sizes: seq<nat>, reader: Bytes, n: nat)
    requires n > 0 && (ReadSizes(src, |sizes| + n) == Then(sizes, ReadSizes(reader, n)))
    ensures Decoded(reader, 5, TWO_32).None? ==> ReadSizes(src, |sizes| + n).None?
    ensures var d := Decoded(reader, 5, TWO_32);
      d.Some? ==> ReadSizes(src, |sizes| + n) == Then(sizes + [d.value.0], ReadSizes(reader[d.value.1..], n - 1))
  {
    var d := Decoded(reader, 5, TWO_32);
    if d.Some? {
      var r := ReadSizes(reader[d.value.1..], n - 1);
      if r.Some? {
        assert sizes + ([d.value.0] + r.value.0) == (sizes + [d.value.0]) + r.value.0;
      }
    }
  }

  /** Lengths read so far, followed by those still to come. */
  function Then(sizes: seq<nat>, r: Option<(seq<nat>, Bytes)>): Option<(seq<nat>, Bytes)> {
    if r.None? then None else Some((sizes + r.value.0, r.value.1))
  }

  lemma {:induction false} SumSnoc(sizes: seq<nat>, v: nat)
    ensures Sum(sizes + [v]) == Sum(sizes) + v
  {
    if sizes != [] {
      SumSnoc(sizes[1..], v);
      assert (sizes + [v])[1..] == sizes[1..] + [v];
    } else {
      assert (sizes + [v])[1..] == [];
    }
  }

  method ReadAllSizes(src: Bytes, n: nat) returns (ok: bool, sizes: seq<nat>, reader: Bytes)
    ensures ok <==> ReadSizes(src, n).Some? && Sum(ReadSizes(src, n).value.0) == |ReadSizes(src, n).value.1|
    ensures ok ==> ReadSizes(src, n) == Some((sizes, reader))
  {
    sizes, reader := [], src;
    var total := 0;
    assert ReadSizes(src, n).Some? ==> [] + ReadSizes(src, n).value.0 == ReadSizes(src, n).value.0;
    hide Decoded;
    while |sizes| < n
      invariant |sizes| <= n && total == Sum(sizes)
      invariant ReadSizes(src, n) == Then(sizes, ReadSizes(reader, n - |sizes|))
    {
      ReadOneMore(src, sizes, reader, n - |sizes|);
      var got, rest, v := GetVarint32(reader);
      if !got {
        return false, sizes, reader;
      }
      SumSnoc(sizes, v);
      reader := rest;
      sizes := sizes + [v];
      total := total + v;
    }
    assert sizes + [] == sizes;
    return total == |reader|, sizes, reader;
  }

  method DecodeStringList(src: Bytes, n: nat) returns (ok: bool, strings: seq<Bytes>)
    ensures ok <==> DecodedList(src, n).Some?
    ensures ok ==> DecodedList(src, n) == Some(strings)
  {
    var sizes, reader;
    ok, sizes, reader := ReadAllSizes(src, n);
    strings := [];
    if !ok {
      return;
    }
    ghost var data := reader;
    var i := 0;
    assert sizes[0..] == sizes && [] + Split(data, sizes) == Split(data, sizes);
    while i < n
      invariant i <= n == |sizes| && |strings| == i
      invariant Sum(sizes[i..]) == |reader| && Split(data, sizes) == strings + Split(reader, sizes[i..])
    {
      assert sizes[i..][1..] == sizes[i + 1..];
      strings := strings + [reader[..sizes[i]]];
      reader := reader[sizes[i]..];
      i := i + 1;
    }
    assert strings + [] == strings;
  }

  // ---------------------------------------------------------------- round trip

  lemma {:induction false} SizesCons(s: Bytes, strings: seq<Bytes>)
    ensures Sizes([s] + strings) == Encoded(|s| % TWO_32) + Sizes(strings)
    ensures Concat([s] + strings) == s + Concat(strings)
  {
    if strings == [] {
      assert [s] + strings == [] + [s];
      SizesSnoc([], s);
      assert Sizes([]) == [] && Concat([]) == [];
    } else {
      hide Encoded, Sizes, Concat;
      var front, x := strings[..|strings| - 1], strings[|strings| - 1];
      assert strings == front + [x] && [s] + strings == ([s] + front) + [x];
      SizesCons(s, front);
      SizesSnoc(front, x);
      SizesSnoc([s] + front, x);
    }
  }

  lemma SizesSnoc(strings: seq<Bytes>, x: Bytes)
    ensures Sizes(strings + [x]) == Sizes(strings) + Encoded(|x| % TWO_32)
    ensures Concat(strings + [x]) == Concat(strings) + x
  {
    hide Encoded;
    assert (strings + [x])[..|strings + [x]| - 1] == strings;
  }

  function Lengths(strings: seq<Bytes>): (r: seq<nat>)
    ensures |r| == |strings|
  {
    if strings == [] then [] else [|strings[0]| % TWO_32] + Lengths(strings[1..])
  }

  lemma {:induction false} SizesReadBack(strings: seq<Bytes>, rest: Bytes)
    ensures ReadSizes(Sizes(strings) + rest, |strings|) == Some((Lengths(strings), rest))
  {
    if strings == [] {
      assert Sizes(strings) + rest == rest;
    } else {
      var s, tail := strings[0], strings[1..];
      assert strings == [s] + tail;
      SizesCons(s, tail);
      var after := Sizes(tail) + rest;
      assert Sizes(strings) + rest == Encoded(|s| % TWO_32) + after;
      Decoded32(|s| % TWO_32, after);
      SizesReadBack(tail, rest);
    }
  }

  /** The stored lengths add up to the number of characters exactly when no string has 2^32 bytes or more. */
  lemma {:induction false} LengthsSum(strings: seq<Bytes>)
    ensures Sum(Lengths(strings)) <= |Concat(strings)|
    ensures Sum(Lengths(strings)) == |Concat(strings)| <==> forall i | 0 <= i < |strings| :: |strings[i]| < TWO_32
  {
    if strings != [] {
      var s, tail := strings[0], strings[1..];
      assert strings == [s] + tail;
      SizesCons(s, tail);
      LengthsSum(tail);
      assert forall i | 0 <= i < |tail| :: tail[i] == strings[i + 1];
      assert forall i | 0 < i < |strings| :: strings[i] == tail[i - 1];
    }
  }

  lemma {:induction false} SplitConcat(strings: seq<Bytes>)
    requires forall i | 0 <= i < |strings| :: |strings[i]| < TWO_32
    ensures Sum(Lengths(strings)) == |Concat(strings)| && Split(Concat(strings), Lengths(strings)) == strings
  {
    LengthsSum(strings);
    if strings != [] {
      var s, tail := strings[0], strings[1..];
      assert strings == [s] + tail;
      SizesCons(s, tail);
      assert forall i | 0 <= i < |tail| :: tail[i] == strings[i + 1];
      SplitConcat(tail);
      assert Lengths(strings)[1..] == Lengths(tail);
      assert (s + Concat(tail))[|s|..] == Concat(tail);
    }
  }

  /** Decoding gives the list back exactly when every string is shorter than 2^32 bytes. */
  lemma DecodedEncodedList(strings: seq<Bytes>)
    ensures DecodedList(EncodedList(strings), |strings|) == Some(strings)
       <==> forall i | 0 <= i < |strings| :: |strings[i]| < TWO_32
  {
    SizesReadBack(strings, Concat(strings));
    LengthsSum(strings);
    if forall i | 0 <= i < |strings| :: |strings[i]| < TWO_32 {
      SplitConcat(strings);
    }
  }

  // ---------------------------------------------------------------- the streaming forms

  class StringListEncoder {
    var out: Bytes
    var rest: Bytes
    /** What was in the output before, and the strings appended since. */
    ghost const before: Bytes
    ghost var strings: seq<Bytes>

    ghost predicate Valid()
      reads this
    {
      out == before + Sizes(strings) && rest == Concat(strings)
    }

    constructor (output: Bytes)
      ensures Valid() && before == output && strings == [] && fresh(this)
    {
      out, rest, before, strings := output, [], output, [];
    }

    method Append(s: Bytes)
      requires Valid()
      modifies this
      ensures Valid() && strings == old(strings) + [s]
    {
      assert (strings + [s])[..|strings|] == strings;
      out := PutVarint32(out, |s| % TWO_32);
      rest := rest + s;
      strings := strings + [s];
    }

    method Finalize()
      requires Valid()
      modifies this
      ensures out == before + EncodedList(strings) && strings == old(strings)
    {
      out := out + rest;
    }
  }

  class StringListDecoder {
    var reader: Bytes

    constructor (input: Bytes)
      ensures reader == input && fresh(this)
    {
      reader := input;
    }

    method ReadSizeList(n: nat) returns (ok: bool, sizes: seq<nat>)
      modifies this
      ensures ok <==> DecodedList(old(reader), n).Some?
      ensures ok ==> |sizes| == n && Sum(sizes) == |reader| && DecodedList(old(reader), n) == Some(Split(reader, sizes))
    {
      ok, sizes, reader := ReadAllSizes(reader, n);
    }

    method Data(size: nat) returns (data: Bytes)
      requires size <= |reader|
      modifies this
      ensures data == old(reader)[..size] && reader == old(reader)[size..]
    {
      data := reader[..size];
      reader := reader[size..];
    }
  }

  /** Reading the sizes and then each string, as callers of the decoder do, is DecodeStringList. */
  method ReadBack(src: Bytes, n: nat) returns (ok: bool, strings: seq<Bytes>)
    ensures ok <==> DecodedList(src, n).Some?
    ensures ok ==> DecodedList(src, n) == Some(strings)
  {
    var decoder := new StringListDecoder(src);
    var sizes;
    ok, sizes := decoder.ReadSizeList(n);
    strings := [];
    if !ok {
      return;
    }
    var i := 0;
    ghost var all := Split(decoder.reader, sizes);
    assert sizes[0..] == sizes && [] + all == all;
    while i < |sizes|
      invariant i <= |sizes| && Sum(sizes[i..]) == |decoder.reader|
      invariant all == strings + Split(decoder.reader, sizes[i..])
    {
      assert sizes[i..][1..] == sizes[i + 1..];
      var data := decoder.Data(sizes[i]);
      strings := strings + [data];
      i := i + 1;
    }
    assert strings + [] == strings;
  }

  /** Both streaming forms together: the bytes are those of EncodeStringList, and the strings come back. */
  method Stream(strings: seq<Bytes>) returns (encoded: Bytes, ok: bool, decoded: seq<Bytes>)
    requires forall i | 0 <= i < |strings| :: |strings[i]| < TWO_32
    ensures encoded == EncodedList(strings) && ok && decoded == strings
  {
    var encoder := new StringListEncoder([]);
    var i := 0;
    while i < |strings|
      invariant i <= |strings| && encoder.Valid() && encoder.before == [] && encoder.strings == strings[..i]
    {
      encoder.Append(strings[i]);
      i := i + 1;
    }
    encoder.Finalize();
    assert strings[..i] == strings && [] + EncodedList(strings) == EncodedList(strings);
    encoded := encoder.out;
    DecodedEncodedList(strings);
    ok, decoded := ReadBack(encoded, |strings|);
  }
}
