/** vstrcatf of src/memmgr/str.c: append formatted text to the string in a
    buffer, or say how much room it takes. What the format and its arguments
    print is given as a text without NULs. */
module AppendFormat {
  import opened Basics

  type Byte = b: int | 0 <= b < 256

  type Bytes = seq<Byte>

  predicate IsText(s: Bytes) {
    0 !in s
  }

  predicate Terminated(buffer: Bytes) {
    FirstZero(buffer) < |buffer|
  }

  /** The string in a buffer. */
  function Str(buffer: Bytes): Bytes {
    buffer[..FirstZero(buffer)]
  }

  /** What vsnprintf writes at a position: as much of the text as leaves room
      for a NUL, and the NUL. */
  function Printed(buffer: Bytes, at: nat, text: Bytes): (r: Bytes)
    requires at < |buffer|
    ensures |r| == |buffer|
  {
    var n := if |text| < |buffer| - at then |text| else |buffer| - at - 1;
    buffer[..at] + text[..n] + [0] + buffer[at + n + 1..]
  }

  function Fits(buffer: Bytes, text: Bytes): bool {
    FirstZero(buffer) + |text| + 1 <= |buffer|
  }

  /** The buffer after the call. */
  function After(buffer: Bytes, text: Bytes): (r: Bytes)
    ensures |r| == |buffer|
  {
    if Terminated(buffer) then
      var printed := Printed(buffer, FirstZero(buffer), text);
      if Fits(buffer, text) then printed else printed[FirstZero(buffer) := 0]
    else if buffer == [] then buffer
    else buffer[|buffer| - 1 := 0]
  }

  /** All of the text is appended, or the string stays as it was. */
  lemma {:induction false} AppendsAllOrNothing(buffer: Bytes, text: Bytes)
    requires IsText(text) && Terminated(buffer)
    ensures Terminated(After(buffer, text))
    ensures Str(After(buffer, text)) == if Fits(buffer, text) then Str(buffer) + text else Str(buffer)
  {
    var used, after := FirstZero(buffer), After(buffer, text);
    if Fits(buffer, text) {
      assert text[..|text|] == text;
      assert forall i | 0 <= i < |text| :: after[used + i] == text[i];
      FirstZeroIs(after, used + |text|);
      assert Str(after) == Str(buffer) + text;
    } else {
      FirstZeroIs(after, used);
      assert Str(after) == Str(buffer);
    }
  }

  /** vsnprintf. */
  method VsnPrintf(buffer: array<Byte>, at: nat, space: nat, text: Bytes) returns (needed: nat)
    requires at + space == buffer.Length
    modifies buffer
    ensures needed == |text|
    ensures buffer[..] == if space == 0 then old(buffer[..]) else Printed(old(buffer[..]), at, text)
  {
    needed := |text|;
    if space > 0 {
      var i := 0;
      while i < |text| && i < space - 1
        invariant i <= |text| && i <= space - 1
        invariant forall k | 0 <= k < i :: buffer[at + k] == text[k]
        invariant forall k | 0 <= k < buffer.Length && !(at <= k < at + i) :: buffer[k] == old(buffer[k])
      {
        buffer[at + i] := text[i];
        i := i + 1;
      }
      buffer[at + i] := 0;
      assert buffer[..] == Printed(old(buffer[..]), at, text);
    }
  }

  /** vstrcatf. The result is the number of bytes appended; `sizeNeeded` is the
      size that the appended string would take. A buffer that is given has a
      size; one with no NUL in it loses its last byte. */
  method VStrCatF(buffer: array?<Byte>, text: Bytes) returns (ret: nat, sizeNeeded: nat)
    requires buffer != null ==> buffer.Length > 0
    modifies if buffer != null then {buffer} else {}
    ensures buffer != null ==> buffer[..] == After(old(buffer[..]), text)
    ensures ret == if buffer != null && Terminated(old(buffer[..])) && Fits(old(buffer[..]), text) then |text| else 0
    ensures sizeNeeded == |text| + 1 + if buffer == null then 0
            else if Terminated(old(buffer[..])) then FirstZero(old(buffer[..])) else buffer.Length - 1
  {
    var used, needed := 0, 0;
    ret := 0;
    if buffer != null {
      while used < buffer.Length && buffer[used] != 0
        invariant used <= buffer.Length && buffer[..] == old(buffer[..]) && forall i | 0 <= i < used :: buffer[i] != 0
      {
        used := used + 1;
      }
      FirstZeroIs(buffer[..], used);
      if used < buffer.Length {
        var space := buffer.Length - used;
        needed := VsnPrintf(buffer, used, space, text);
        needed := needed + 1;
        if needed > space {
          buffer[used] := 0;
        } else {
          ret := needed - 1;
        }
      } else {
        needed := |text| + 1;
        used := buffer.Length - 1;
        buffer[used] := 0;
      }
    } else {
      needed := |text| + 1;
    }
    sizeNeeded := used + needed;
  }
}
