/** String answers of `SQLGetInfo`: the bounded copy of `strInfoResponse`, and the probe-then-fetch
    sequence by which `SQLGetInfoW` obtains the whole string. */
module InfoString {
  import opened Wrappers
  import opened CStrings

  const NUL := '\0'

  /** A source string: no character is the terminator. */
  type Source = s: string | NUL !in s

  datatype InfoCode = Success | SuccessWithInfo | Error

  function Min(a: int, b: int): int {
    if a < b then a else b
  }

  /** The buffer starts with `text` and its terminator. */
  ghost predicate HoldsString(buffer: seq<char>, text: string) {
    |text| < |buffer| && buffer[..|text|] == text && buffer[|text|] == NUL
  }

  /** Copies the first `n` characters and a terminator. */
  method CopyTerminated(src: string, n: nat, dest: array<char>)
    requires n <= |src| && n < dest.Length
    modifies dest
    ensures HoldsString(dest[..], src[..n])
    ensures dest[n + 1..] == old(dest[n + 1..])
  {
    for i := 0 to n
      invariant dest[..i] == src[..i]
      invariant dest[n + 1..] == old(dest[n + 1..])
    {
      dest[i] := src[i];
    }
    dest[n] := NUL;
    assert dest[..][..n] == src[..n];
  }

  /** `strInfoResponse`, for a source that is not null. A destination has room for `cbLen` characters, and
      for the terminator when `cbLen` is 0; with `cbLen` 0 the source must fit a 16-bit length. */
  method StrInfoResponse(src: Source, dest: array?<char>, cbLen: int) returns (rc: InfoCode, pcbLen: int)
    requires 0 <= cbLen < 0x8000
    requires dest != null ==> dest.Length > 0 && dest.Length >= cbLen
    requires dest != null && cbLen == 0 ==> |src| < 0x8000
    modifies if dest == null then {} else {dest}
    ensures pcbLen == ToShort(|src|)
    ensures dest == null ==> rc == SuccessWithInfo
    ensures dest != null ==> HoldsString(dest[..], src[..Min(|src|, if cbLen > 0 then cbLen - 1 else 0)])
    ensures dest != null ==> (rc == Success <==> src == "" || ToShort(|src|) < cbLen)
    ensures dest != null && cbLen > 0 ==>
              ((rc == Success <==> |src| < cbLen) <==> |src| < 0x8000 || ToShort(|src|) >= cbLen)
    ensures rc != Error
  {
    rc := Success;
    var len := |src|;
    if dest != null {
      if len == 0 {
        dest[0] := NUL;
      } else if ToShort(len) < cbLen {
        CopyTerminated(src, Min(len, cbLen - 1), dest);
      } else {
        if cbLen > 0 {
          CopyTerminated(src, cbLen - 1, dest);
        } else {
          dest[0] := NUL;
        }
        rc := SuccessWithInfo;
      }
    } else {
      rc := SuccessWithInfo;
    }
    pcbLen := ToShort(len);
  }

  /** The string path of `RS_SQLGetInfo`: a negative length is refused. */
  method GetInfo(src: Source, dest: array?<char>, cbLen: int) returns (rc: InfoCode, pcbLen: int)
    requires -0x8000 <= cbLen < 0x8000
    requires dest != null ==> dest.Length > 0 && dest.Length >= cbLen
    requires dest != null && cbLen == 0 ==> |src| < 0x8000
    modifies if dest == null then {} else {dest}
    ensures rc == Error <==> cbLen < 0
    ensures cbLen >= 0 ==> pcbLen == ToShort(|src|)
    ensures dest != null && cbLen > 0 ==> HoldsString(dest[..], src[..Min(|src|, cbLen - 1)])
  {
    if cbLen < 0 {
      return Error, 0;
    }
    rc, pcbLen := StrInfoResponse(src, dest, cbLen);
  }

  /** What the probe and the fetch of `SQLGetInfoW` recover from a source of a given length. */
  function Recovered(src: Source): Option<string> {
    var probe := ToShort(|src|);
    if probe == 0x7FFF then None
    else if probe <= 0 then Some("")
    else Some(src[..Min(|src|, probe)])
  }

  /** Steps 1 and 2 of the string path of `SQLGetInfoW`: ask for the length, fetch into a buffer of that
      size, and cut at the terminator. */
  method ProbeThenFetch(src: Source) returns (utf8: Option<string>)
    ensures utf8 == Recovered(src)
    ensures utf8 == Some(src) <==> |src| < 0x7FFF
  {
    RecoversIffShort(src);
    var rc, probeLen := GetInfo(src, null, 0);
    var utf8BytesNeeded := if probeLen > 0 then probeLen + 1 else 1;
    var buffer := new char[utf8BytesNeeded](_ => NUL);
    var gotUtf8: int;
    ghost var n := Min(|src|, utf8BytesNeeded - 1);
    rc, gotUtf8 := GetInfo(src, buffer, ToShort(utf8BytesNeeded));
    if rc == Error {
      return None;
    }
    ghost var text: Source := src[..n];
    assert HoldsString(buffer[..], text);
    if gotUtf8 > 0 {
      var payloadBytes := gotUtf8;
      if buffer[payloadBytes - 1] == NUL {
        payloadBytes := payloadBytes - 1;
      }
      utf8 := Some(buffer[..payloadBytes]);
    } else {
      CStringIs(buffer[..], text);
      utf8 := Some(CString(buffer[..]));
    }
  }

  /** The probe and the fetch recover the string exactly when it is shorter than 32767 characters. */
  lemma RecoversIffShort(src: Source)
    ensures Recovered(src) == Some(src) <==> |src| < 0x7FFF
  {
    var probe := ToShort(|src|);
    assert src[..|src|] == src;
    if |src| >= 0x8000 && 0 < probe < 0x7FFF {
      assert |src[..Min(|src|, probe)]| < |src|;
    }
  }
}
