/** Records of fixed-width little-endian fields: every binary header of the system is one. */
module Fields {
  import opened Common
  import opened WireLe

  /** Where field `n` starts. */
  function Offset(ws: seq<nat>, n: nat): nat
    requires n <= |ws|
  {
    if n == 0 then 0 else Offset(ws, n - 1) + ws[n - 1]
  }

  /** The first `n` fields, one after the other. */
  function Pack(vs: seq<nat>, ws: seq<nat>, n: nat): (b: Bytes)
    requires n <= |vs| && n <= |ws|
    ensures |b| == Offset(ws, n)
  {
    if n == 0 then [] else Pack(vs, ws, n - 1) + Store(vs[n - 1], ws[n - 1])
  }

  function Unpack(b: Bytes, ws: seq<nat>, n: nat): (vs: seq<nat>)
    requires n <= |ws| && |b| >= Offset(ws, n)
    ensures |vs| == n
  {
    if n == 0 then [] else Unpack(b, ws, n - 1) + [Load(b[Offset(ws, n - 1)..Offset(ws, n)])]
  }

  predicate Fits(vs: seq<nat>, ws: seq<nat>) {
    |vs| == |ws| && forall i | 0 <= i < |vs| :: vs[i] < Pow256(ws[i])
  }

  lemma {:induction false} OffsetMonotone(ws: seq<nat>, i: nat, n: nat)
    requires i <= n <= |ws|
    ensures Offset(ws, i) <= Offset(ws, n)
  {
    if i < n { OffsetMonotone(ws, i, n - 1); }
  }

  /** Each field is what stands at its place. */
  lemma {:induction false} UnpackAt(b: Bytes, ws: seq<nat>, n: nat, i: nat)
    requires i < n <= |ws| && |b| >= Offset(ws, n)
    ensures Offset(ws, i + 1) <= |b| && Unpack(b, ws, n)[i] == Load(b[Offset(ws, i)..Offset(ws, i + 1)])
  {
    if i < n - 1 { UnpackAt(b, ws, n - 1, i); }
  }

  lemma {:induction false} UnpackFrame(b: Bytes, b': Bytes, ws: seq<nat>, n: nat)
    requires n <= |ws| && Offset(ws, n) <= |b| && Offset(ws, n) <= |b'| && b[..Offset(ws, n)] == b'[..Offset(ws, n)]
    ensures Unpack(b, ws, n) == Unpack(b', ws, n)
  {
    if n > 0 {
      var lo, hi := Offset(ws, n - 1), Offset(ws, n);
      assert b[..lo] == b[..hi][..lo] && b'[..lo] == b'[..hi][..lo];
      assert b[lo..hi] == b[..hi][lo..hi] && b'[lo..hi] == b'[..hi][lo..hi];
      UnpackFrame(b, b', ws, n - 1);
    }
  }

  lemma {:induction false} UnpackPack(vs: seq<nat>, ws: seq<nat>, n: nat, rest: Bytes)
    requires Fits(vs, ws) && n <= |ws|
    ensures Unpack(Pack(vs, ws, n) + rest, ws, n) == vs[..n]
  {
    if n > 0 {
      var front, last := Pack(vs, ws, n - 1), Store(vs[n - 1], ws[n - 1]);
      assert Pack(vs, ws, n) + rest == front + (last + rest);
      UnpackPack(vs, ws, n - 1, last + rest);
      assert (front + (last + rest))[|front|..|front| + |last|] == last;
      LoadStore(vs[n - 1], ws[n - 1]);
    }
  }

  lemma {:induction false} PackFrame(vs: seq<nat>, vs': seq<nat>, ws: seq<nat>, n: nat)
    requires n <= |ws| && n <= |vs| && n <= |vs'| && vs[..n] == vs'[..n]
    ensures Pack(vs, ws, n) == Pack(vs', ws, n)
  {
    if n > 0 {
      assert vs[n - 1] == vs[..n][n - 1] && vs'[n - 1] == vs'[..n][n - 1];
      assert vs[..n - 1] == vs[..n][..n - 1] && vs'[..n - 1] == vs'[..n][..n - 1];
      PackFrame(vs, vs', ws, n - 1);
    }
  }

  lemma {:induction false} UnpackFits(b: Bytes, ws: seq<nat>, n: nat)
    requires n <= |ws| && |b| >= Offset(ws, n)
    ensures forall i | 0 <= i < n :: Unpack(b, ws, n)[i] < Pow256(ws[i])
  {
    if n > 0 {
      UnpackFits(b, ws, n - 1);
      StoreLoad(b[Offset(ws, n - 1)..Offset(ws, n)]);
    }
  }

  lemma {:induction false} PackUnpack(b: Bytes, ws: seq<nat>, n: nat)
    requires n <= |ws| && |b| >= Offset(ws, n)
    ensures Pack(Unpack(b, ws, n), ws, n) == b[..Offset(ws, n)]
  {
    if n > 0 {
      var vs, front := Unpack(b, ws, n), Unpack(b, ws, n - 1);
      assert vs[..n - 1] == front[..n - 1];
      PackFrame(vs, front, ws, n - 1);
      PackUnpack(b, ws, n - 1);
      StoreLoad(b[Offset(ws, n - 1)..Offset(ws, n)]);
      assert b[..Offset(ws, n - 1)] + b[Offset(ws, n - 1)..Offset(ws, n)] == b[..Offset(ws, n)];
    }
  }

  /** Changing one field changes only its own bytes. */
  lemma {:induction false} PackPatched(vs: seq<nat>, ws: seq<nat>, n: nat, i: nat, v: nat)
    requires i < n <= |ws| && n <= |vs|
    ensures Offset(ws, i) <= Offset(ws, i + 1) <= Offset(ws, n)
    ensures var b, b' := Pack(vs, ws, n), Pack(vs[i := v], ws, n);
            b'[..Offset(ws, i)] == b[..Offset(ws, i)] && b'[Offset(ws, i + 1)..] == b[Offset(ws, i + 1)..]
  {
    OffsetMonotone(ws, i, n);
    OffsetMonotone(ws, i + 1, n);
    var b, b' := Pack(vs, ws, n), Pack(vs[i := v], ws, n);
    if i == n - 1 {
      PackFrame(vs, vs[i := v], ws, i);
      assert b[..Offset(ws, i)] == Pack(vs, ws, i) && b'[..Offset(ws, i)] == Pack(vs[i := v], ws, i);
    } else {
      PackPatched(vs, ws, n - 1, i, v);
      var f, f' := Pack(vs, ws, n - 1), Pack(vs[i := v], ws, n - 1);
      assert b[..Offset(ws, i)] == f[..Offset(ws, i)] && b'[..Offset(ws, i)] == f'[..Offset(ws, i)];
      assert b[Offset(ws, i + 1)..] == f[Offset(ws, i + 1)..] + Store(vs[n - 1], ws[n - 1]);
      assert b'[Offset(ws, i + 1)..] == f'[Offset(ws, i + 1)..] + Store(vs[n - 1], ws[n - 1]);
    }
  }

  lemma Infix(a: Bytes, b: Bytes, lo: nat, hi: nat)
    requires lo <= hi <= |a|
    ensures (a + b)[lo..hi] == a[lo..hi]
  {
  }

  /** A field's bytes stand at its offset. */
  lemma {:induction false} PackAt(vs: seq<nat>, ws: seq<nat>, n: nat, i: nat)
    requires i < n <= |ws| && n <= |vs|
    ensures Offset(ws, i) <= Offset(ws, i + 1) <= Offset(ws, n)
    ensures Pack(vs, ws, n)[Offset(ws, i)..Offset(ws, i + 1)] == Store(vs[i], ws[i])
  {
    OffsetMonotone(ws, i + 1, n);
    if i < n - 1 {
      PackAt(vs, ws, n - 1, i);
      Infix(Pack(vs, ws, n - 1), Store(vs[n - 1], ws[n - 1]), Offset(ws, i), Offset(ws, i + 1));
    }
  }

  /** The bytes `d` laid over `s` at offset `at`. */
  function Patch(s: Bytes, at: nat, d: Bytes): Bytes
    requires at + |d| <= |s|
  {
    s[..at] + d + s[at + |d|..]
  }

  /** Storing one field in place is packing the record with that field. */
  lemma PatchField(vs: seq<nat>, ws: seq<nat>, n: nat, i: nat, v: nat)
    requires i < n <= |ws| && n <= |vs|
    ensures Offset(ws, i) + ws[i] == Offset(ws, i + 1) <= Offset(ws, n)
    ensures Patch(Pack(vs, ws, n), Offset(ws, i), Store(v, ws[i])) == Pack(vs[i := v], ws, n)
  {
    PackPatched(vs, ws, n, i, v);
    PackAt(vs[i := v], ws, n, i);
    var b := Pack(vs[i := v], ws, n);
    assert b == b[..Offset(ws, i)] + b[Offset(ws, i)..Offset(ws, i + 1)] + b[Offset(ws, i + 1)..];
  }

  lemma PatchMiddle(x: Bytes, y: Bytes, z: Bytes, at: nat, d: Bytes)
    requires at + |d| <= |y|
    ensures Patch(x + y + z, |x| + at, d) == x + Patch(y, at, d) + z
  {
    var s := x + y + z;
    assert s[..|x| + at] == x + y[..at] && s[|x| + at + |d|..] == y[at + |d|..] + z;
  }
}
