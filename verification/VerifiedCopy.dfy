/** The verified copy of a mounted source: reads of any size, writes that may come up short, and the final checks. */
module VerifiedCopy {
  import opened Wrappers

  /**
   * The files outside: what the reader saw at its two looks, what its reads gave, and what the written file reads back
   * as.
   */
  datatype Files = Files(isFile: bool, size: nat, steady: bool, given: seq<seq<byte>>, readBack: seq<seq<byte>>)

  datatype Copied = Copied(bytes: nat, sha256: string)

  function Joined(chunks: seq<seq<byte>>): seq<byte> {
    if chunks == [] then [] else Joined(chunks[..|chunks| - 1]) + chunks[|chunks| - 1]
  }

  lemma {:induction false} JoinedIsPrefix(chunks: seq<seq<byte>>, i: nat)
    requires i <= |chunks|
    ensures Joined(chunks[..i]) <= Joined(chunks)
    decreases |chunks| - i
  {
    if i == |chunks| {
      assert chunks[..i] == chunks;
    } else {
      JoinedIsPrefix(chunks, i + 1);
      assert chunks[..i + 1][..i] == chunks[..i];
    }
  }

  function Min(a: nat, b: nat): nat { if a <= b then a else b }

  /** Writes a whole chunk, however little each write takes; a write that takes nothing ends the copy. */
  method WriteAll(target: seq<byte>, chunk: seq<byte>, takes: nat -> nat, k0: nat)
    returns (after: seq<byte>, ok: bool, k: nat)
    ensures ok ==> after == target + chunk
    ensures target <= after <= target + chunk
    ensures (forall n :: takes(n) > 0) ==> ok
  {
    after, k := target, k0;
    var written := 0;
    while written < |chunk|
      invariant written <= |chunk| && after == target + chunk[..written]
      decreases |chunk| - written
    {
      var n := Min(takes(k), |chunk| - written);
      k := k + 1;
      if n == 0 {
        return after, false, k;
      }
      assert chunk[..written + n] == chunk[..written] + chunk[written..written + n];
      after := after + chunk[written..written + n];
      written := written + n;
    }
    assert chunk[..written] == chunk;
    ok := true;
  }

  /** The reading loop: everything up to the end of the source, refused once it exceeds the maximum. */
  method CopyBody(given: seq<seq<byte>>, maximum: nat, takes: nat -> nat)
    returns (ok: bool, output: seq<byte>, hashed: seq<byte>)
    requires [] !in given
    ensures |output| <= maximum && output <= Joined(given)
    ensures ok ==> output == Joined(given) == hashed
    ensures (forall n :: takes(n) > 0) ==> (ok <==> |Joined(given)| <= maximum)
  {
    output, hashed := [], [];
    var k := 0;
    for i := 0 to |given|
      invariant output == Joined(given[..i]) == hashed && |output| <= maximum
    {
      assert given[..i + 1][..i] == given[..i];
      JoinedIsPrefix(given, i + 1);
      if |hashed| + |given[i]| > maximum {
        return false, output, hashed;
      }
      hashed := hashed + given[i];
      var written;
      output, written, k := WriteAll(output, given[i], takes, k);
      if !written {
        return false, output, hashed;
      }
    }
    assert given[..|given|] == given;
    ok := true;
  }

  method ReadBack(chunks: seq<seq<byte>>, maximum: nat) returns (r: Option<seq<byte>>)
    requires [] !in chunks
    ensures r == if |Joined(chunks)| <= maximum then Some(Joined(chunks)) else None
  {
    var seen: seq<byte> := [];
    for i := 0 to |chunks|
      invariant seen == Joined(chunks[..i]) && |seen| <= maximum
    {
      assert chunks[..i + 1][..i] == chunks[..i];
      JoinedIsPrefix(chunks, i + 1);
      if |seen| + |chunks[i]| > maximum {
        return None;
      }
      seen := seen + chunks[i];
    }
    assert chunks[..|chunks|] == chunks;
    return Some(seen);
  }

  /**
   * The copy. When it succeeds the output is exactly what was read, of the size the source had, under its digest, and a
   * verified output read back the same: a source of fixed content is copied
   * whole. When no write is refused it succeeds exactly under those conditions.
   */
  method CopyVerified(f: Files, maximum: nat, verify: bool, takes: nat -> nat, sha256: seq<byte> -> string,
                      ghost content: seq<byte>)
    returns (r: Option<Copied>, output: seq<byte>)
    requires [] !in f.given && [] !in f.readBack
    ensures |output| <= maximum && output <= Joined(f.given)
    ensures r.Some? ==> output == Joined(f.given) && r.value == Copied(|output|, sha256(output)) && |output| == f.size
    ensures r.Some? && Joined(f.given) <= content && |content| == f.size ==> output == content
    ensures r.Some? && verify ==> |Joined(f.readBack)| == |output| && sha256(Joined(f.readBack)) == sha256(output)
    ensures (forall n :: takes(n) > 0) ==>
              (r.Some? <==> && f.isFile && |Joined(f.given)| == f.size <= maximum && f.steady
                            && (verify ==>
                                  |Joined(f.readBack)| == f.size
                                  && sha256(Joined(f.readBack)) == sha256(Joined(f.given))))
  {
    if !f.isFile || f.size > maximum {
      return None, [];
    }
    var ok, hashed;
    ok, output, hashed := CopyBody(f.given, maximum, takes);
    if !ok || |hashed| != f.size || !f.steady {
      return None, output;
    }
    if verify {
      var seen := ReadBack(f.readBack, maximum);
      if seen.None? || |seen.value| != |hashed| || sha256(seen.value) != sha256(hashed) {
        return None, output;
      }
    }
    r := Some(Copied(|hashed|, sha256(hashed)));
  }
}
