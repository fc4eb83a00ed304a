/**
 * The small string and array helpers of the remote utilities:
 * `range`, `sanitizePath`, `chunkString` and `getDeviceType`.
 */
module Utilities {
  import opened Wrappers
  import opened Strings
  import opened Hosts

  // ---------------------------------------------------------------------
  // range(lowEnd, highEnd)
  // ---------------------------------------------------------------------

  /**
   * Fills an array from its last slot down with `highEnd`, `highEnd - 1`, ...
   * while a counter that starts at `highEnd - lowEnd + 1` is decremented to 0.
   * The counter only reaches 0 when `lowEnd <= highEnd + 1`; below that the
   * loop never stops, so that is required here.
   */
  method Range(lowEnd: int, highEnd: int) returns (r: seq<int>)
    requires lowEnd <= highEnd + 1
    ensures |r| == highEnd - lowEnd + 1
    ensures forall i :: 0 <= i < |r| ==> r[i] == lowEnd + i
  {
    var n := highEnd - lowEnd + 1;
    var arr := new int[n];
    var c := n;
    var high := highEnd;
    while c != 0
      invariant 0 <= c <= n
      invariant high == lowEnd + c - 1
      invariant forall i :: c <= i < n ==> arr[i] == lowEnd + i
    {
      c := c - 1;
      arr[c] := high;
      high := high - 1;
    }
    r := arr[..];
  }

  // ---------------------------------------------------------------------
  // sanitizePath(path)
  // ---------------------------------------------------------------------

  /** `path.replace(/ /g, '\\ ')`: every space is preceded by a backslash. */
  function SanitizePath(path: string): (r: string)
    ensures |r| == |path| + CountChar(path, ' ')
    ensures forall i :: 0 <= i < |r| && r[i] == ' ' ==> 0 < i && r[i - 1] == '\\'
  {
    if |path| == 0 then ""
    else (if path[0] == ' ' then "\\ " else [path[0]]) + SanitizePath(path[1..])
  }

  /** Deletes every backslash that stands immediately before a space. */
  function DropSpaceEscapes(s: string): string {
    if |s| == 0 then ""
    else if |s| >= 2 && s[0] == '\\' && s[1] == ' ' then DropSpaceEscapes(s[1..])
    else [s[0]] + DropSpaceEscapes(s[1..])
  }

  /** Deleting the escaping backslashes recovers the original path. */
  lemma {:induction false} SanitizePathRoundTrip(path: string)
    ensures DropSpaceEscapes(SanitizePath(path)) == path
  {
    if |path| > 0 {
      var rest := SanitizePath(path[1..]);
      SanitizePathRoundTrip(path[1..]);
      if path[0] == ' ' {
        assert SanitizePath(path) == "\\ " + rest;
        assert (" " + rest)[1..] == rest;
        assert DropSpaceEscapes(" " + rest) == " " + DropSpaceEscapes(rest);
      } else {
        assert SanitizePath(path) == [path[0]] + rest;
        assert |rest| > 0 ==> rest[0] != ' ';
        assert ([path[0]] + rest)[1..] == rest;
      }
      assert path == [path[0]] + path[1..];
    }
  }

  /** A path without spaces is returned unchanged, and only such a path is. */
  lemma {:induction false} SanitizePathIdentity(path: string)
    ensures SanitizePath(path) == path <==> ' ' !in path
  {
    if |path| > 0 {
      SanitizePathIdentity(path[1..]);
      assert path == [path[0]] + path[1..];
      if path[0] == ' ' {
        assert |SanitizePath(path)| > |path|;
      }
    }
  }

  /** Characters other than the space and the backslash occur in the result exactly as often as in the path. */
  lemma {:induction false} SanitizePathKeepsOthers(path: string, c: char)
    requires c != ' ' && c != '\\'
    ensures CountChar(SanitizePath(path), c) == CountChar(path, c)
  {
    if |path| > 0 {
      SanitizePathKeepsOthers(path[1..], c);
      var head := if path[0] == ' ' then "\\ " else [path[0]];
      CountCharAppend(head, SanitizePath(path[1..]), c);
    }
  }

  lemma {:induction false} CountCharAppend(a: string, b: string, c: char)
    ensures CountChar(a + b, c) == CountChar(a, c) + CountChar(b, c)
  {
    if |a| > 0 {
      assert (a + b)[1..] == a[1..] + b;
      CountCharAppend(a[1..], b, c);
    } else {
      assert a + b == b;
    }
  }

  // ---------------------------------------------------------------------
  // chunkString(str, len)
  // ---------------------------------------------------------------------

  /**
   * A character that `(.|[\r\n ])` matches: `.` takes everything except the
   * four line terminators and the class adds back carriage return and line
   * feed, so only U+2028 and U+2029 are left unmatched.
   */
  predicate IsChunkChar(c: char) {
    c != '\U{2028}' && c != '\U{2029}'
  }

  /** The characters of `s` that the chunk pattern can match, in order. */
  function KeepChunkChars(s: string): string {
    if |s| == 0 then ""
    else (if IsChunkChar(s[0]) then [s[0]] else "") + KeepChunkChars(s[1..])
  }

  /** How many leading characters one greedy match of `(.|[\r\n ]){1,len}` takes (0 when none). */
  function ChunkLength(s: string, len: nat): (n: nat)
    ensures n <= len && n <= |s|
    ensures forall i :: 0 <= i < n ==> IsChunkChar(s[i])
    ensures n < len && n < |s| ==> !IsChunkChar(s[n])
  {
    if len == 0 || |s| == 0 || !IsChunkChar(s[0]) then 0
    else 1 + ChunkLength(s[1..], len - 1)
  }

  /** The successive matches of the chunk pattern under the `g` flag. */
  function Chunks(s: string, len: nat): (r: seq<string>)
    requires len >= 1
    decreases |s|
    ensures forall k :: 0 <= k < |r| ==> 1 <= |r[k]| <= len
  {
    if |s| == 0 then []
    else if !IsChunkChar(s[0]) then Chunks(s[1..], len)
    else
      var n := ChunkLength(s, len);
      [s[..n]] + Chunks(s[n..], len)
  }

  /**
   * `String(str).match(new RegExp('(.|[\r\n ]){1,' + len + '}', 'g'))`:
   * `null` when nothing matches, else the pieces. A `len` of 0 makes the
   * pattern invalid (the call throws), so it is required to be positive.
   */
  function ChunkString(s: string, len: nat): (r: Option<seq<string>>)
    requires len >= 1
    ensures r.None? <==> KeepChunkChars(s) == ""
    ensures r.Some? ==> Concat(r.value) == KeepChunkChars(s)
    ensures r.Some? ==> forall k :: 0 <= k < |r.value| ==> 1 <= |r.value[k]| <= len
  {
    ChunksConcat(s, len);
    var cs := Chunks(s, len);
    if cs == [] then None else Some(cs)
  }

  /** Gluing the pieces back together gives the matchable characters of the input. */
  lemma {:induction false} ChunksConcat(s: string, len: nat)
    requires len >= 1
    ensures Concat(Chunks(s, len)) == KeepChunkChars(s)
    decreases |s|
  {
    if |s| > 0 {
      if !IsChunkChar(s[0]) {
        ChunksConcat(s[1..], len);
      } else {
        var n := ChunkLength(s, len);
        ChunksConcat(s[n..], len);
        assert s == s[..n] + s[n..];
        KeepAppend(s[..n], s[n..]);
        KeepAllChunkChars(s[..n]);
        var r := Chunks(s, len);
        assert r == [s[..n]] + Chunks(s[n..], len);
        assert r[1..] == Chunks(s[n..], len);
      }
    }
  }

  lemma {:induction false} KeepAppend(a: string, b: string)
    ensures KeepChunkChars(a + b) == KeepChunkChars(a) + KeepChunkChars(b)
  {
    if |a| > 0 {
      assert (a + b)[1..] == a[1..] + b;
      KeepAppend(a[1..], b);
    } else {
      assert a + b == b;
    }
  }

  lemma {:induction false} KeepAllChunkChars(a: string)
    requires forall i :: 0 <= i < |a| ==> IsChunkChar(a[i])
    ensures KeepChunkChars(a) == a
  {
    if |a| > 0 {
      KeepAllChunkChars(a[1..]);
      assert a == [a[0]] + a[1..];
    }
  }

  /**
   * On text without U+2028/U+2029 every piece but the last has exactly `len`
   * characters.
   */
  lemma {:induction false} ChunksFull(s: string, len: nat)
    requires len >= 1
    requires forall i :: 0 <= i < |s| ==> IsChunkChar(s[i])
    ensures forall k :: 0 <= k < |Chunks(s, len)| - 1 ==> |Chunks(s, len)[k]| == len
    decreases |s|
  {
    if |s| > 0 {
      var n := ChunkLength(s, len);
      assert n == len || n == |s|;
      ChunksFull(s[n..], len);
      var r := Chunks(s, len);
      assert r == [s[..n]] + Chunks(s[n..], len);
      if n == |s| {
        assert s[n..] == [];
      }
    }
  }

  // ---------------------------------------------------------------------
  // getDeviceType(host)
  // ---------------------------------------------------------------------

  /** The `Device ID + '+' + Architecture` key of a host. */
  function GetDeviceType(host: Host): (r: string)
    ensures |r| == |host.deviceId| + 1 + |host.architecture|
    ensures r[|host.deviceId|] == '+'
    ensures r[..|host.deviceId|] == host.deviceId && r[|host.deviceId| + 1..] == host.architecture
  {
    host.deviceId + "+" + host.architecture
  }

  /**
   * When device ids contain no `+`, the key determines the device id and the
   * architecture: the first `+` separates them.
   */
  lemma DeviceTypeInjective(h1: Host, h2: Host)
    requires '+' !in h1.deviceId && '+' !in h2.deviceId
    requires GetDeviceType(h1) == GetDeviceType(h2)
    ensures h1.deviceId == h2.deviceId && h1.architecture == h2.architecture
  {
    var k := |h1.deviceId|;
    var t := GetDeviceType(h1);
    assert h1.deviceId == t[..k] == h2.deviceId;
    assert h1.architecture == t[k + 1..] == h2.architecture;
  }
}
