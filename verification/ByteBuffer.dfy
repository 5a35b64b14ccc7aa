/** The append buffer with a read pointer that every serializer works on. */
module Buffer {
  import opened Bytes

  /** The sequence s stands in vec at position p. */
  ghost predicate At<T>(vec: seq<T>, p: nat, s: seq<T>)
    decreases s
  {
    if s == [] then p <= |vec| else p < |vec| && vec[p] == s[0] && At(vec, p + 1, s[1..])
  }

  lemma {:induction false} AtIsSlice<T>(vec: seq<T>, p: nat, s: seq<T>)
    ensures At(vec, p, s) <==> p + |s| <= |vec| && vec[p..p + |s|] == s
    decreases s
  {
    if s != [] {
      AtIsSlice(vec, p + 1, s[1..]);
      if p + |s| <= |vec| {
        var t := vec[p..p + |s|];
        assert t[1..] == vec[p + 1..p + 1 + |s[1..]|];
        assert t == [t[0]] + t[1..] && s == [s[0]] + s[1..];
      }
    }
  }

  lemma {:induction false} AtSplit<T>(vec: seq<T>, p: nat, a: seq<T>, b: seq<T>)
    ensures At(vec, p, a + b) <==> At(vec, p, a) && At(vec, p + |a|, b)
    decreases a
  {
    if a == [] {
      assert a + b == b;
      if At(vec, p, b) { AtIsSlice(vec, p, b); }
    } else {
      AtSplit(vec, p + 1, a[1..], b);
      assert (a + b)[1..] == a[1..] + b;
    }
  }

  /** A read of `size` bytes as an unsigned integer: the value and the new pointer.
      A read past the end gives zero and leaves the pointer alone. */
  function TakeInt(vec: Data, p: nat, size: nat): (r: (nat, nat))
    ensures r.0 < Pow256(size)
    ensures r.1 == p || r.1 == p + size <= |vec|
  {
    if |vec| < p + size then (0, p) else (FromLE(vec[p..p + size]), p + size)
  }

  /** A read of `size` raw bytes: past the end it gives no bytes and leaves the pointer alone. */
  function TakeBytes(vec: Data, p: nat, size: nat): (r: (Data, nat))
    ensures r.1 == p || r.1 == p + size <= |vec|
  {
    if |vec| < p + size then ([], p) else (vec[p..p + size], p + size)
  }

  lemma TakeIntAt(vec: Data, p: nat, n: int, size: nat)
    requires At(vec, p, LE(n, size))
    ensures TakeInt(vec, p, size) == (n % Pow256(size), p + size)
  {
    AtIsSlice(vec, p, LE(n, size));
    FromLEOfLE(n, size);
  }

  lemma TakeBytesAt(vec: Data, p: nat, s: Data)
    requires At(vec, p, s)
    ensures TakeBytes(vec, p, |s|) == (s, p + |s|)
  {
    AtIsSlice(vec, p, s);
  }

  class ByteBuffer {
    var pointer: nat
    var vec: Data

    constructor ()
      ensures pointer == 0 && vec == []
    {
      pointer, vec := 0, [];
    }

    constructor FromBinary(data: Data)
      ensures pointer == 0 && vec == data
    {
      pointer, vec := 0, data;
    }

    /** Append<T> for an integer type of `size` bytes. */
    method AppendInt(data: int, size: nat)
      modifies this`vec
      ensures vec == old(vec) + LE(data, size)
    {
      for i := 0 to size
        invariant vec == old(vec) + LE(data, i)
      {
        LESnoc(data, i);
        vec := vec + [Shr8(data, i) % 256];
      }
    }

    method AppendBinary(data: Data)
      modifies this`vec
      ensures vec == old(vec) + data
    {
      vec := vec + data;
    }

    /** Read<T> for an unsigned integer type of `size` bytes. */
    method ReadInt(size: nat) returns (data: nat)
      modifies this`pointer
      ensures (data, pointer) == TakeInt(vec, old(pointer), size)
    {
      if |vec| < pointer + size {
        return 0;
      }
      data := 0;
      ghost var bytes := vec[pointer..pointer + size];
      for i := 0 to size
        invariant pointer == old(pointer)
        invariant data == FromLE(bytes[..i])
      {
        FromLESnoc(bytes[..i], bytes[i]);
        assert bytes[..i + 1] == bytes[..i] + [bytes[i]];
        data := data + vec[pointer + i] * Pow256(i);
      }
      assert bytes[..size] == bytes;
      pointer := pointer + size;
    }

    method ReadBinary(size: nat) returns (data: Data)
      modifies this`pointer
      ensures (data, pointer) == TakeBytes(vec, old(pointer), size)
    {
      if |vec| < pointer + size {
        return [];
      }
      pointer := pointer + size;
      data := vec[pointer - size..pointer];
    }
  }
}
