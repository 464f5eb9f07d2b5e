/** The installer download: the response body is streamed into `<dest>.tmp`, and only when
    the stream has finished is that file renamed to `<dest>`. The working directory is a map
    from file names to contents. */
module Staging {
  import opened Wrappers

  newtype byte = x: int | 0 <= x < 256

  /** The name the body is written under while it streams in. */
  function Staged(dest: string): (r: string)
    ensures r != dest && |r| == |dest| + 4 && r[..|dest|] == dest
  {
    dest + ".tmp"
  }

  /** The bytes of a body, chunk after chunk. */
  function Concat(chunks: seq<seq<byte>>): seq<byte>
  {
    if |chunks| == 0 then [] else chunks[0] + Concat(chunks[1..])
  }

  /** Writing two runs of chunks one after the other writes their bytes one after the other. */
  lemma {:induction false} ConcatAppend(a: seq<seq<byte>>, b: seq<seq<byte>>)
    ensures Concat(a + b) == Concat(a) + Concat(b)
    decreases |a|
  {
    if |a| > 0 {
      assert (a + b)[1..] == a[1..] + b;
      ConcatAppend(a[1..], b);
    } else {
      assert a + b == b;
    }
  }

  /** One more chunk appends its bytes. */
  lemma ConcatSnoc(body: seq<seq<byte>>, i: nat)
    requires i < |body|
    ensures Concat(body[..i + 1]) == Concat(body[..i]) + body[i]
  {
    assert body[..i + 1] == body[..i] + [body[i]];
    ConcatAppend(body[..i], [body[i]]);
    assert Concat([body[i]]) == body[i] + Concat([]);
  }

  /** The stream finishes: no failure is due before the last chunk is written. A failure due at
      `k` means the first `k` chunks were written and the transfer broke before the next one. */
  predicate Completes(body: seq<seq<byte>>, failAt: Option<nat>)
  {
    failAt.None? || failAt.value >= |body|
  }

  /** The working directory after the download: on completion the staged name is gone and `dest`
      holds the whole body; on a broken transfer the staged name holds what arrived and nothing
      else changed. */
  function AfterDownload(files: map<string, seq<byte>>, dest: string, body: seq<seq<byte>>, failAt: Option<nat>): map<string, seq<byte>>
  {
    if Completes(body, failAt) then (files - {Staged(dest)})[dest := Concat(body)]
    else files[Staged(dest) := Concat(body[..failAt.value])]
  }

  /** A completed download leaves the whole body under `dest`, removes the staged name and
      touches no other file. */
  lemma CompletedDownload(files: map<string, seq<byte>>, dest: string, body: seq<seq<byte>>, failAt: Option<nat>)
    requires Completes(body, failAt)
    ensures var after := AfterDownload(files, dest, body, failAt);
      && dest in after && after[dest] == Concat(body)
      && Staged(dest) !in after
      && forall name :: name != dest && name != Staged(dest) ==>
           (name in after <==> name in files) && (name in files ==> after[name] == files[name])
  {
  }

  /** A broken download never makes `dest` appear or change: the name the installer is looked
      up by holds either what it held before or nothing, so a later run's existence check
      never mistakes a partial file for the installer. The staged file holds a prefix of the body. */
  lemma {:induction false} BrokenDownload(files: map<string, seq<byte>>, dest: string, body: seq<seq<byte>>, failAt: Option<nat>)
    requires !Completes(body, failAt)
    ensures var after := AfterDownload(files, dest, body, failAt);
      && (dest in after <==> dest in files)
      && (dest in files ==> after[dest] == files[dest])
      && Staged(dest) in after
      && |after[Staged(dest)]| <= |Concat(body)|
      && after[Staged(dest)] == Concat(body)[..|after[Staged(dest)]|]
  {
    var k := failAt.value;
    assert body == body[..k] + body[k..];
    ConcatAppend(body[..k], body[k..]);
  }

  /** The files an action step sees. */
  class WorkingDirectory {
    var files: map<string, seq<byte>>

    constructor(initial: map<string, seq<byte>>)
      ensures files == initial
    {
      files := initial;
    }

    /** Stream `body` into the staged name, then rename it to `dest`; `failAt` is where the
        transfer breaks, if it does. The staged file is created empty, or truncated, first. */
    method Download(dest: string, body: seq<seq<byte>>, failAt: Option<nat>) returns (ok: bool)
      modifies this
      ensures ok == Completes(body, failAt)
      ensures files == AfterDownload(old(files), dest, body, failAt)
    {
      var tmp := Staged(dest);
      files := files[tmp := []];
      var i := 0;
      while i < |body|
        invariant i <= |body|
        invariant failAt.Some? ==> i <= failAt.value
        invariant files == old(files)[tmp := Concat(body[..i])]
      {
        if failAt.Some? && failAt.value == i {
          return false;
        }
        ConcatSnoc(body, i);
        files := files[tmp := files[tmp] + body[i]];
        i := i + 1;
      }
      assert body[..i] == body;
      var written := files[tmp];
      files := (files - {tmp})[dest := written];
      ok := true;
    }
  }
}
