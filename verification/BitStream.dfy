/** A stream of nine-bit numbers cut into bytes, and lists with gaps sent as a bitset and the
    values present.  Nothing here depends on how nine bits are taken out of two bytes. */
module BitStream {

  datatype Option<+T> = None | Some(value: T)

  /** The k-th nine-bit number of the stream that starts at `base`; `nine(a, b, r)` takes the
      nine bits that start `r` bits into the byte pair (a, b). */
  function Field<B, V>(nine: (B, B, nat) -> V, bytes: seq<B>, base: nat, k: nat): V
    requires base + 9 * k / 8 + 1 < |bytes|
  {
    nine(bytes[base + 9 * k / 8], bytes[base + 9 * k / 8 + 1], 9 * k % 8)
  }

  /** Bytes taken by `n` coordinate pairs: 18 bits each, rounded up. */
  function StreamLength(n: nat): nat {
    (18 * n + 7) / 8
  }

  function RoundUp4(n: nat): nat {
    (n + 3) / 4 * 4
  }

  /** How many of the first `i` flags are set. */
  function Rank(flags: seq<bool>, i: nat): (r: nat)
    requires i <= |flags|
    ensures r <= i
  {
    if i == 0 then 0 else Rank(flags, i - 1) + (if flags[i - 1] then 1 else 0)
  }

  lemma {:induction false} RankMonotone(flags: seq<bool>, i: nat, j: nat)
    requires i <= j <= |flags|
    ensures Rank(flags, i) <= Rank(flags, j)
    decreases j - i
  {
    if i < j { RankMonotone(flags, i, j - 1); }
  }

  lemma {:induction false} RankBelow(flags: seq<bool>, i: nat)
    requires i < |flags| && flags[i]
    ensures Rank(flags, i) < Rank(flags, |flags|)
  {
    RankMonotone(flags, i + 1, |flags|);
  }

  /** The coordinate pair of entry `i`: the pairs sent are those of the set flags, in order. */
  function CoordAt<B, V>(nine: (B, B, nat) -> V, bytes: seq<B>, base: nat, flags: seq<bool>, i: nat): Option<(V, V)>
    requires base + StreamLength(Rank(flags, |flags|)) <= |bytes| && i < |flags|
  {
    if flags[i] then
      RankBelow(flags, i);
      Some((Field(nine, bytes, base, 2 * Rank(flags, i)), Field(nine, bytes, base, 2 * Rank(flags, i) + 1)))
    else None
  }

  function DecodeCoords<B, V>(nine: (B, B, nat) -> V, bytes: seq<B>, base: nat, flags: seq<bool>): seq<Option<(V, V)>>
    requires base + StreamLength(Rank(flags, |flags|)) <= |bytes|
  {
    seq(|flags|, i requires 0 <= i < |flags| => CoordAt(nine, bytes, base, flags, i))
  }

  function DecodeInfos<B>(bytes: seq<B>, base: nat, flags: seq<bool>): seq<Option<B>>
    requires base + Rank(flags, |flags|) <= |bytes|
  {
    seq(|flags|, i requires 0 <= i < |flags| =>
      if flags[i] then
        RankBelow(flags, i);
        Some(bytes[base + Rank(flags, i)])
      else None)
  }

  function Flags<T>(options: seq<Option<T>>): (flags: seq<bool>)
    ensures |flags| == |options|
  {
    seq(|options|, i requires 0 <= i < |options| => options[i].Some?)
  }

  /** The numbers of the pairs present, in order. */
  function Numbers<V>(coords: seq<Option<(V, V)>>): seq<V> {
    if coords == [] then []
    else
      Numbers(coords[..|coords| - 1]) +
      match coords[|coords| - 1]
      case None => []
      case Some((x, y)) => [x, y]
  }

  function Present<T>(options: seq<Option<T>>): seq<T> {
    if options == [] then []
    else
      Present(options[..|options| - 1]) +
      match options[|options| - 1]
      case None => []
      case Some(x) => [x]
  }

  lemma {:induction false} RankOfPrefix(flags: seq<bool>, n: nat, i: nat)
    requires i <= n <= |flags|
    ensures Rank(flags[..n], i) == Rank(flags, i)
  {
    if i > 0 { RankOfPrefix(flags, n, i - 1); }
  }

  lemma {:induction false} NumbersAt<V>(coords: seq<Option<(V, V)>>, i: nat)
    requires i <= |coords|
    ensures |Numbers(coords)| == 2 * Rank(Flags(coords), |coords|)
    ensures i < |coords| && coords[i].Some? ==>
              var r := 2 * Rank(Flags(coords), i);
              r + 1 < |Numbers(coords)| && coords[i].value == (Numbers(coords)[r], Numbers(coords)[r + 1])
  {
    if coords != [] {
      var n := |coords| - 1;
      NumbersAt(coords[..n], if i < n then i else n);
      assert Flags(coords[..n]) == Flags(coords)[..n];
      RankOfPrefix(Flags(coords), n, n);
      if i < n { RankOfPrefix(Flags(coords), n, i); }
    }
  }

  lemma {:induction false} PresentAt<T>(options: seq<Option<T>>, i: nat)
    requires i <= |options|
    ensures |Present(options)| == Rank(Flags(options), |options|)
    ensures i < |options| && options[i].Some? ==>
              var r := Rank(Flags(options), i);
              r < |Present(options)| && options[i].value == Present(options)[r]
  {
    if options != [] {
      var n := |options| - 1;
      PresentAt(options[..n], if i < n then i else n);
      assert Flags(options[..n]) == Flags(options)[..n];
      RankOfPrefix(Flags(options), n, n);
      if i < n { RankOfPrefix(Flags(options), n, i); }
    }
  }

  /** Numbers 0 .. 2n-1 lie inside the stream, so they survive copying it elsewhere. */
  lemma {:induction false} FieldSurvivesCopy<B, V>(nine: (B, B, nat) -> V, bytes: seq<B>, base: nat, packet: seq<B>, at: nat, n: nat, k: nat)
    requires base + StreamLength(n) <= |bytes| && at + StreamLength(n) <= |packet| && k < 2 * n
    requires packet[at..at + StreamLength(n)] == bytes[base..base + StreamLength(n)]
    ensures Field(nine, packet, at, k) == Field(nine, bytes, base, k)
  {
    var q := 9 * k / 8;
    assert q + 1 < StreamLength(n);
    assert packet[at + q] == packet[at..at + StreamLength(n)][q];
    assert bytes[base + q] == bytes[base..base + StreamLength(n)][q];
    assert packet[at + q + 1] == packet[at..at + StreamLength(n)][q + 1];
    assert bytes[base + q + 1] == bytes[base..base + StreamLength(n)][q + 1];
  }

  lemma {:induction false} PairSurvivesCopy<B, V>(nine: (B, B, nat) -> V, bytes: seq<B>, base: nat, numbers: seq<V>,
                               packet: seq<B>, at: nat, n: nat, r: nat)
    requires base + StreamLength(n) <= |bytes| && at + StreamLength(n) <= |packet| && r < n
    requires packet[at..at + StreamLength(n)] == bytes[base..base + StreamLength(n)]
    requires Holds(nine, bytes, base, numbers) && |numbers| == 2 * n
    ensures Field(nine, packet, at, 2 * r) == numbers[2 * r]
    ensures Field(nine, packet, at, 2 * r + 1) == numbers[2 * r + 1]
  {
    FieldSurvivesCopy(nine, bytes, base, packet, at, n, 2 * r);
    FieldSurvivesCopy(nine, bytes, base, packet, at, n, 2 * r + 1);
  }

  /** The stream that starts at `base` holds these numbers. */
  ghost predicate Holds<B, V>(nine: (B, B, nat) -> V, bytes: seq<B>, base: nat, numbers: seq<V>) {
    forall k :: 0 <= k < |numbers| ==> base + 9 * k / 8 + 1 < |bytes| && Field(nine, bytes, base, k) == numbers[k]
  }

  lemma {:induction false} CoordDecodes<B, V>(nine: (B, B, nat) -> V, bytes: seq<B>, base: nat, flags: seq<bool>, numbers: seq<V>,
                           packet: seq<B>, at: nat, n: nat, i: nat)
    requires n == Rank(flags, |flags|) && |numbers| == 2 * n && i < |flags| && flags[i]
    requires base + StreamLength(n) <= |bytes| && at + StreamLength(n) <= |packet|
    requires packet[at..at + StreamLength(n)] == bytes[base..base + StreamLength(n)]
    requires Holds(nine, bytes, base, numbers)
    ensures Rank(flags, i) < n
    ensures var r := Rank(flags, i);
            CoordAt(nine, packet, at, flags, i) == Some((numbers[2 * r], numbers[2 * r + 1]))
  {
    RankBelow(flags, i);
    PairSurvivesCopy(nine, bytes, base, numbers, packet, at, n, Rank(flags, i));
  }

  /** The flags say which pairs are present and the numbers are theirs, in order. */
  ghost predicate Agrees<V>(coords: seq<Option<(V, V)>>, flags: seq<bool>, numbers: seq<V>) {
    && |flags| == |coords| && |numbers| == 2 * Rank(flags, |flags|)
    && forall i :: 0 <= i < |coords| ==> PairAgrees(coords[i], flags, numbers, i)
  }

  ghost predicate PairAgrees<V>(coord: Option<(V, V)>, flags: seq<bool>, numbers: seq<V>, i: nat)
    requires i < |flags|
  {
    && (flags[i] <==> coord.Some?)
    && (flags[i] ==>
          var r := Rank(flags, i);
          2 * r + 1 < |numbers| && coord == Some((numbers[2 * r], numbers[2 * r + 1])))
  }

  lemma {:induction false} NumbersAgree<V>(coords: seq<Option<(V, V)>>)
    ensures Agrees(coords, Flags(coords), Numbers(coords))
  {
    NumbersAt(coords, |coords|);
    forall i: nat | i < |coords|
      ensures PairAgrees(coords[i], Flags(coords), Numbers(coords), i)
    {
      NumbersAt(coords, i);
    }
  }

  /** A stream that holds the numbers of `coords` decodes to `coords`, wherever it is copied. */
  lemma {:induction false} CoordsDecode<B, V>(nine: (B, B, nat) -> V, bytes: seq<B>, base: nat, coords: seq<Option<(V, V)>>,
                           flags: seq<bool>, numbers: seq<V>, packet: seq<B>, at: nat, n: nat)
    requires Agrees(coords, flags, numbers) && n == Rank(flags, |flags|)
    requires base + StreamLength(n) <= |bytes| && at + StreamLength(n) <= |packet|
    requires packet[at..at + StreamLength(n)] == bytes[base..base + StreamLength(n)]
    requires Holds(nine, bytes, base, numbers)
    ensures DecodeCoords(nine, packet, at, flags) == coords
  {
    forall i: nat | i < |coords|
      ensures CoordAt(nine, packet, at, flags, i) == coords[i]
    {
      assert PairAgrees(coords[i], flags, numbers, i);
      if flags[i] {
        CoordDecodes(nine, bytes, base, flags, numbers, packet, at, n, i);
      }
    }
  }

  lemma {:induction false} InfosDecode<B>(infos: seq<Option<B>>, packet: seq<B>, at: nat)
    requires at + |Present(infos)| <= |packet| && packet[at..at + |Present(infos)|] == Present(infos)
    requires |Present(infos)| == Rank(Flags(infos), |infos|)
    ensures DecodeInfos(packet, at, Flags(infos)) == infos
  {
    var flags := Flags(infos);
    forall i | 0 <= i < |infos|
      ensures DecodeInfos(packet, at, flags)[i] == infos[i]
    {
      if flags[i] {
        RankBelow(flags, i);
        PresentAt(infos, i);
        assert packet[at + Rank(flags, i)] == packet[at..at + |Present(infos)|][Rank(flags, i)];
      }
    }
  }
}
