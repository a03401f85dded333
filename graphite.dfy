/** `graphite` (main.py, lines 119-135): the most common versions as Carbon metrics,
    framed for Carbon's pickle protocol by a 4-byte big-endian length. */
module Graphite {
  import opened Wrappers
  import opened Text

  type byte = b: int | 0 <= b < 256

  /** At most this many versions become metrics. */
  const MaxMetrics: nat := 15

  /** One tuple `(path, (timestamp, value))`. */
  datatype Metric = Metric(path: string, timestamp: int, count: nat)

  /** `version.lower().replace('.', '-').replace('/', '.')`: a dot in the version must
      not split the Carbon path, so it becomes a dash, and the `name/version` slash
      becomes the path separator. */
  function MetricPath(version: string): (r: string)
    ensures |r| == |version|
    ensures forall i :: 0 <= i < |r| ==> (r[i] == '.' <==> version[i] == '/')
    ensures forall i :: 0 <= i < |r| ==> (r[i] == '-' <==> version[i] == '.' || version[i] == '-')
    ensures forall i :: 0 <= i < |r| ==> r[i] != '/'
    ensures forall i :: 0 <= i < |r| && version[i] != '.' && version[i] != '/' ==>
      r[i] == LowerChar(version[i])
  {
    Replace(Replace(Lower(version), '.', '-'), '/', '.')
  }

  /** The script's own kind of version name. */
  lemma MetricPathSynapse(version: string)
    requires version == "Synapse/1.6.1"
    ensures MetricPath(version) == "synapse.1-6-1"
  {
    var r := MetricPath(version);
    assert |r| == 13;
    assert r[0] == 's' && r[1] == 'y' && r[2] == 'n' && r[3] == 'a' && r[4] == 'p';
    assert r[5] == 's' && r[6] == 'e' && r[7] == '.' && r[8] == '1' && r[9] == '-';
    assert r[10] == '6' && r[11] == '-' && r[12] == '1';
  }

  /** The value of a big-endian byte string. */
  function BigEndian(b: seq<byte>): nat
  {
    if b == [] then 0 else 256 * BigEndian(b[..|b| - 1]) + b[|b| - 1]
  }

  /** A 4-byte string read as a number. */
  lemma BigEndian4(b: seq<byte>)
    requires |b| == 4
    ensures BigEndian(b) == ((b[0] as int * 256 + b[1]) * 256 + b[2]) * 256 + b[3]
  {
    var b3, b2, b1 := b[..3], b[..2], b[..1];
    assert b3[..2] == b2 && b2[..1] == b1 && b1[..0] == [];
    assert BigEndian(b1) == b[0];
    assert BigEndian(b2) == 256 * BigEndian(b1) + b[1];
    assert BigEndian(b3) == 256 * BigEndian(b2) + b[2];
    assert BigEndian(b) == 256 * BigEndian(b3) + b[3];
  }

  /** `struct.pack('!L', n)`: four bytes, most significant first; a length that does
      not fit in 32 bits makes `struct.pack` raise, which is `None`. */
  function PackLength(n: nat): (r: Option<seq<byte>>)
    ensures r.Some? <==> n < 0x1_0000_0000
    ensures r.Some? ==> |r.value| == 4 && BigEndian(r.value) == n
  {
    if n < 0x1_0000_0000 then
      var m1 := n / 256;
      var m2 := m1 / 256;
      var b := [m2 / 256, m2 % 256, m1 % 256, n % 256];
      BigEndian4(b);
      Some(b)
    else None
  }

  /** Every 4-byte header is the encoding of exactly one length. */
  lemma PackBigEndian(b: seq<byte>)
    requires |b| == 4
    ensures PackLength(BigEndian(b)) == Some(b)
  {
    BigEndian4(b);
    var n := BigEndian(b);
    var m1 := (b[0] as int * 256 + b[1]) * 256 + b[2];
    var m2 := b[0] as int * 256 + b[1];
    assert n / 256 == m1 && n % 256 == b[3];
    assert m1 / 256 == m2 && m1 % 256 == b[2];
    assert m2 / 256 == b[0] && m2 % 256 == b[1];
    assert n < 0x1_0000_0000;
    assert [b[0], b[1], b[2], b[3]] == b;
  }

  function Min(a: nat, b: nat): nat
  {
    if a < b then a else b
  }

  /** `graphite(versions)` up to the socket: the tuples sent, the pickled payload and its
      size header. `now` is `int(time.time())`; `pickle` stands for `pickle.dumps(_, 2)`. */
  method Graphite(versions: seq<(string, nat)>, now: int, pickle: seq<Metric> -> seq<byte>)
    returns (tuples: seq<Metric>, package: seq<byte>, size: Option<seq<byte>>)
    ensures |tuples| == Min(MaxMetrics, |versions|)
    ensures forall i :: 0 <= i < |tuples| ==>
      tuples[i] == Metric(MetricPath(versions[i].0), now, versions[i].1)
    ensures package == pickle(tuples)
    ensures size.Some? <==> |package| < 0x1_0000_0000
    ensures size.Some? ==> |size.value| == 4 && BigEndian(size.value) == |package|
  {
    var first := versions[..Min(MaxMetrics, |versions|)];
    tuples := [];
    for i := 0 to |first|
      invariant |tuples| == i
      invariant forall j :: 0 <= j < i ==>
        tuples[j] == Metric(MetricPath(first[j].0), now, first[j].1)
    {
      var version := MetricPath(first[i].0);
      tuples := tuples + [Metric(version, now, first[i].1)];
    }
    package := pickle(tuples);
    size := PackLength(|package|);
  }
}
