/** Walking up the certificate chain, and the reader the bridge posts request bodies with. */
module Aia {
  import opened Common

  // What the walk looks at in a parsed certificate.
  datatype Cert = Cert(subject: string, issuer: string, issuingUrls: seq<string>)

  /**
   The world outside: x509.ParseCertificate, and what fetching a URL yields the n-th
   time the walk fetches, so that links may fail, change and form cycles.
   */
  datatype World = World(parse: Bytes -> Option<Cert>, fetch: (nat, string) -> Option<Bytes>)

  /** Whether the walk may go on from a certificate: it names an issuer's URL and is not self-issued. */
  predicate HasIssuerLink(c: Cert) {
    c.issuingUrls != [] && c.subject != c.issuer
  }

  // The certificate at position `i` of the path: the leaf, then the parsed chain.
  function At(w: World, leaf: Cert, chain: seq<Bytes>, i: nat): Option<Cert>
    requires i <= |chain|
  {
    if i == 0 then Some(leaf) else w.parse(chain[i - 1])
  }

  // What the walk obtains when it stands at position `i`.
  function Next(w: World, leaf: Cert, chain: seq<Bytes>, i: nat): Option<Bytes>
    requires i <= |chain|
  {
    var c := At(w, leaf, chain, i);
    if c.Some? && HasIssuerLink(c.value) then w.fetch(i, c.value.issuingUrls[0]) else None
  }

  /** Every element was fetched from the link of the one before it. */
  ghost predicate IsIssuerPath(w: World, leaf: Cert, chain: seq<Bytes>) {
    forall i {:trigger Next(w, leaf, chain, i)} :: 0 <= i < |chain| ==> Next(w, leaf, chain, i) == Some(chain[i])
  }

  /**
   The longest issuer path of at most `limit` certificates: it stops early only at a
   missing link, a self-issued certificate, a failed fetch or a certificate that does
   not parse, which is itself the last element.
   */
  ghost predicate IsLongestPath(w: World, leaf: Cert, chain: seq<Bytes>, limit: nat) {
    |chain| <= limit && IsIssuerPath(w, leaf, chain) &&
    (|chain| == limit || Next(w, leaf, chain, |chain|) == None)
  }

  /** FetchCertChain; None is the error for a leaf that does not parse. */
  method FetchCertChain(w: World, leafDER: Bytes) returns (r: Option<seq<Bytes>>)
    ensures r.None? <==> w.parse(leafDER).None?
    ensures r.Some? ==> IsLongestPath(w, w.parse(leafDER).value, r.value, 5)
  {
    var leaf := w.parse(leafDER);
    if leaf.None? {
      return None;
    }
    var chain: seq<Bytes> := [];
    var current := leaf.value;
    ghost var start := leaf.value;
    for i := 0 to 5
      invariant |chain| == i && IsIssuerPath(w, start, chain)
      invariant At(w, start, chain, i) == Some(current)
    {
      if |current.issuingUrls| == 0 {
        return Some(chain);
      }
      if current.subject == current.issuer {
        return Some(chain);
      }
      var issuerDER := w.fetch(i, current.issuingUrls[0]);
      if issuerDER.None? {
        return Some(chain);
      }
      PathExtends(w, start, chain, issuerDER.value);
      chain := chain + [issuerDER.value];
      var issuer := w.parse(issuerDER.value);
      if issuer.None? {
        return Some(chain);
      }
      current := issuer.value;
    }
    return Some(chain);
  }

  lemma PathExtends(w: World, leaf: Cert, chain: seq<Bytes>, der: Bytes)
    requires IsIssuerPath(w, leaf, chain) && Next(w, leaf, chain, |chain|) == Some(der)
    ensures IsIssuerPath(w, leaf, chain + [der])
  {
    var longer := chain + [der];
    forall i | 0 <= i < |longer| ensures Next(w, leaf, longer, i) == Some(longer[i]) {
      assert At(w, leaf, longer, i) == At(w, leaf, chain, i);
      assert Next(w, leaf, longer, i) == Next(w, leaf, chain, i);
    }
  }

  // Equal paths so far lead to the same next step.
  lemma NextAgrees(w: World, leaf: Cert, a: seq<Bytes>, b: seq<Bytes>, k: nat)
    requires k <= |a| && k <= |b| && (k > 0 ==> a[k - 1] == b[k - 1])
    ensures Next(w, leaf, a, k) == Next(w, leaf, b, k)
  {
  }

  lemma {:induction false} PathsAgree(w: World, leaf: Cert, a: seq<Bytes>, b: seq<Bytes>, k: nat)
    requires IsIssuerPath(w, leaf, a) && IsIssuerPath(w, leaf, b)
    requires k < |a| && k < |b|
    ensures a[k] == b[k]
  {
    if k == 0 {
    } else {
      PathsAgree(w, leaf, a, b, k - 1);
    }
    NextAgrees(w, leaf, a, b, k);
  }

  /**
   The description leaves no choice: in one world there is one longest path of each
   limit, and a larger limit only extends it.
   */
  lemma LongestPathUnique(w: World, leaf: Cert, a: seq<Bytes>, limitA: nat, b: seq<Bytes>, limitB: nat)
    requires IsLongestPath(w, leaf, a, limitA) && IsLongestPath(w, leaf, b, limitB) && limitA <= limitB
    ensures a <= b && |a| == Min(|b|, limitA)
  {
    var k := Min(|a|, |b|);
    forall i | 0 <= i < k ensures a[i] == b[i] {
      PathsAgree(w, leaf, a, b, i);
    }
    NextAgrees(w, leaf, a, b, k);
  }

  /**
   Every step of the walk went to the first URL of a parsed certificate that is not its
   own issuer; and a walk of fewer than five steps ended at a certificate that does not
   parse, names no URL, is its own issuer, or whose issuer could not be fetched.
   */
  lemma StepsExactly(w: World, leaf: Cert, chain: seq<Bytes>, i: nat)
    requires IsLongestPath(w, leaf, chain, 5) && i <= |chain|
    ensures var c := if i == 0 then Some(leaf) else w.parse(chain[i - 1]);
      if i < |chain| then
        c.Some? && |c.value.issuingUrls| > 0 && c.value.subject != c.value.issuer &&
        w.fetch(i, c.value.issuingUrls[0]) == Some(chain[i])
      else if i < 5 then
        c.None? || |c.value.issuingUrls| == 0 || c.value.subject == c.value.issuer ||
        w.fetch(i, c.value.issuingUrls[0]).None?
      else i == 5
  {
    assert i < |chain| ==> Next(w, leaf, chain, i) == Some(chain[i]);
  }

  // A world in which every link works and leads to another link.
  ghost predicate Endless(w: World) {
    (forall n, url :: w.fetch(n, url).Some?) &&
    (forall der :: w.parse(der).Some? && HasIssuerLink(w.parse(der).value))
  }

  /** Where links never end, as around a cycle, the walk takes exactly five steps. */
  lemma EndlessPathsAreCut(w: World, leaf: Cert, chain: seq<Bytes>)
    requires Endless(w) && HasIssuerLink(leaf)
    requires IsLongestPath(w, leaf, chain, 5)
    ensures |chain| == 5
  {
  }

  // --- byteSliceReader ---

  function Min(a: nat, b: nat): nat {
    if a < b then a else b
  }

  class ByteSliceReader {
    const data: Bytes
    var pos: nat

    ghost predicate Valid()
      reads this
    {
      pos <= |data|
    }

    constructor (b: Bytes)
      ensures Valid() && data == b && pos == 0
    {
      data := b;
      pos := 0;
    }

    /** Read: end of file is reported only with nothing left, and bytes are handed out in order. */
    method Read(p: array<byte>) returns (n: nat, eof: bool)
      requires Valid()
      modifies this`pos, p
      ensures Valid()
      ensures eof <==> old(pos) == |data|
      ensures n == Min(p.Length, |data| - old(pos)) && pos == old(pos) + n
      ensures p[..n] == data[old(pos)..pos] && p[n..] == old(p[n..])
    {
      if pos >= |data| {
        return 0, true;
      }
      n := Min(p.Length, |data| - pos);
      var i := 0;
      while i < n
        invariant 0 <= i <= n && pos == old(pos)
        invariant p[..i] == data[pos..pos + i]
        invariant p[n..] == old(p[n..])
      {
        p[i] := data[pos + i];
        i := i + 1;
      }
      pos := pos + n;
      eof := false;
    }

    /** Reads into buffers of any sizes, empty ones included, one after the other. */
    method ReadMany(sizes: seq<nat>) returns (all: Bytes)
      requires Valid()
      modifies this`pos
      ensures Valid()
      ensures all == Delivered(data, old(pos), sizes) && pos == ReadsEnd(|data|, old(pos), sizes)
    {
      ghost var room := 0;
      all := [];
      for k := 0 to |sizes|
        invariant Valid() && room == Sum(sizes[..k])
        invariant pos == Min(|data|, old(pos) + room) && all == data[old(pos)..pos]
      {
        var buffer := new byte[sizes[k]](_ => 0);
        var n, _ := Read(buffer);
        all := all + buffer[..n];
        NextSum(sizes, k);
        room := room + sizes[k];
      }
      assert sizes[..|sizes|] == sizes;
      ReadsDeliverPrefix(data, old(pos), sizes);
    }

    /** And one more read: it reports end of file exactly when the others had room for everything. */
    method ReadOnceMore(sizes: seq<nat>, last: nat) returns (all: Bytes, more: Bytes, eof: bool)
      requires Valid()
      modifies this`pos
      ensures Valid()
      ensures all == Delivered(data, old(pos), sizes)
      ensures eof <==> old(pos) + Sum(sizes) >= |data|
      ensures pos == ReadsEnd(|data|, old(pos), sizes) + |more|
      ensures |more| == Min(last, |data| - ReadsEnd(|data|, old(pos), sizes)) && more == data[pos - |more|..pos]
    {
      all := ReadMany(sizes);
      var buffer := new byte[last](_ => 0);
      var n;
      n, eof := Read(buffer);
      more := buffer[..n];
      ReadsDeliverPrefix(data, old(pos), sizes);
    }

    /** Any loop that reads into non-empty buffers until end of file ends with the whole data. */
    method ReadAll(sizes: nat -> nat) returns (all: Bytes)
      requires Valid() && pos == 0
      requires forall k :: sizes(k) > 0
      modifies this`pos
      ensures all == data && pos == |data|
    {
      all := [];
      var k := 0;
      var done := false;
      while !done
        invariant Valid() && all == data[..pos]
        invariant done ==> pos == |data|
        decreases |data| - pos, if done then 0 else 1
      {
        var buffer := new byte[sizes(k)](_ => 0);
        var n, eof := Read(buffer);
        all := all + buffer[..n];
        done := eof;
        k := k + 1;
      }
    }
  }

  /** The position after reads into buffers of these sizes. */
  function ReadsEnd(length: nat, pos: nat, sizes: seq<nat>): (end: nat)
    requires pos <= length
    ensures pos <= end <= length
    decreases |sizes|
  {
    if sizes == [] then pos else ReadsEnd(length, pos + Min(sizes[0], length - pos), sizes[1..])
  }

  function Sum(sizes: seq<nat>): nat {
    if sizes == [] then 0 else sizes[0] + Sum(sizes[1..])
  }

  lemma {:induction false} SumSnoc(sizes: seq<nat>, last: nat)
    ensures Sum(sizes + [last]) == Sum(sizes) + last
  {
    if sizes == [] {
      assert Sum([last]) == last + Sum([last][1..]);
      assert sizes + [last] == [last];
    } else {
      assert (sizes + [last])[1..] == sizes[1..] + [last];
      SumSnoc(sizes[1..], last);
    }
  }

  lemma NextSum(sizes: seq<nat>, k: nat)
    requires k < |sizes|
    ensures Sum(sizes[..k + 1]) == Sum(sizes[..k]) + sizes[k]
  {
    SumSnoc(sizes[..k], sizes[k]);
    assert sizes[..k] + [sizes[k]] == sizes[..k + 1];
  }

  /** What those reads hand out, one after the other. */
  function Delivered(data: Bytes, pos: nat, sizes: seq<nat>): Bytes
    requires pos <= |data|
    decreases |sizes|
  {
    if sizes == [] then []
    else
      var next := pos + Min(sizes[0], |data| - pos);
      data[pos..next] + Delivered(data, next, sizes[1..])
  }

  /**
   Whatever the buffer sizes, the bytes delivered are the data from the position on, as
   far as all buffers together reach, none lost or repeated; and the position is at the
   end exactly when the buffers had room for everything.
   */
  lemma {:induction false} ReadsDeliverPrefix(data: Bytes, pos: nat, sizes: seq<nat>)
    requires pos <= |data|
    ensures ReadsEnd(|data|, pos, sizes) == Min(|data|, pos + Sum(sizes))
    ensures Delivered(data, pos, sizes) == data[pos..ReadsEnd(|data|, pos, sizes)]
    ensures ReadsEnd(|data|, pos, sizes) == |data| <==> pos + Sum(sizes) >= |data|
    decreases |sizes|
  {
    if sizes == [] {
    } else {
      var next := pos + Min(sizes[0], |data| - pos);
      ReadsDeliverPrefix(data, next, sizes[1..]);
      var end := ReadsEnd(|data|, pos, sizes);
      assert data[pos..next] + data[next..end] == data[pos..end];
    }
  }
}
