/**
 * Properties of the DNS name decoder that the source exhibits as written:
 * how pointers are reported and how a pointer loop is stopped.
 */
module DnsProperties {
  import opened Wrappers
  import opened DnsParser
  import opened DnsEncoding

  /** At a pointer byte the decoder follows the pointer, whatever its label state. */
  lemma ScanPointer(data: seq<byte>, full: seq<byte>, visited: seq<nat>, i: nat, chars: seq<byte>,
                    section: byte, initial: bool)
    requires i < |data| && IsPointer(data[i])
    ensures Scan(data, full, visited, i, chars, section, initial) == Follow(data, full, visited, i, chars)
  {
    assert Scan(data, full, visited, i, chars, section, initial)
        == ScanByte(data, full, visited, i, chars, section, initial);
  }

  /**
   * A pointer after a first label: the label's bytes are kept as they are
   * (not lower-cased), a dot and the name at the target follow, and the
   * reported position is the pointer byte's index plus 3, one byte past the
   * pointer's end.
   */
  lemma PointerAfterLabel(l: seq<byte>, hi: byte, lo: byte, rest: seq<byte>, full: seq<byte>,
                          visited: seq<nat>, target: Decoded)
    requires ValidLabel(l) && IsPointer(hi)
    requires PointerOffset(hi, lo) !in visited && PointerOffset(hi, lo) <= |full|
    requires DecodeName(full[PointerOffset(hi, lo)..], full, visited + [PointerOffset(hi, lo)]) == Ok(target)
    ensures DecodeName([|l|] + l + ([hi, lo] + rest), full, visited)
         == Ok(Decoded(|l| + 4, l + [Dot] + target.name))
  {
    var data := [|l|] + l + ([hi, lo] + rest);
    var i := |[|l|] + l|;
    assert DecodeName(data, full, visited) == Scan(data, full, visited, i, l, 0, false) by {
      ScanFirstLabel(l, [hi, lo] + rest, full, visited);
    }
    assert Scan(data, full, visited, i, l, 0, false) == Ok(Decoded(i + 3, l + [Dot] + target.name)) by {
      assert data[i] == hi && data[i + 1] == lo;
      PointerResolved(data, full, visited, i, l, 0, false, target);
    }
  }

  /** A pointer to a new offset within the packet appends the name found there after a dot and reports its position plus 3. */
  lemma PointerResolved(data: seq<byte>, full: seq<byte>, visited: seq<nat>, i: nat, chars: seq<byte>,
                        section: byte, initial: bool, target: Decoded)
    requires i + 1 < |data| && IsPointer(data[i])
    requires var o := PointerOffset(data[i], data[i + 1]);
      o !in visited && o <= |full| && DecodeName(full[o..], full, visited + [o]) == Ok(target)
    ensures Scan(data, full, visited, i, chars, section, initial) == Ok(Decoded(i + 3, chars + [Dot] + target.name))
  {
    ScanPointer(data, full, visited, i, chars, section, initial);
  }

  /** A pointer as the first byte of a name gives a name that starts with a dot and reports position 3. */
  lemma LeadingPointer(hi: byte, lo: byte, rest: seq<byte>, full: seq<byte>, visited: seq<nat>, target: Decoded)
    requires IsPointer(hi)
    requires PointerOffset(hi, lo) !in visited && PointerOffset(hi, lo) <= |full|
    requires DecodeName(full[PointerOffset(hi, lo)..], full, visited + [PointerOffset(hi, lo)]) == Ok(target)
    ensures DecodeName([hi, lo] + rest, full, visited) == Ok(Decoded(3, [Dot] + target.name))
  {
    var data := [hi, lo] + rest;
    assert data[0] == hi && data[1] == lo;
    ScanPointer(data, full, visited, 0, [], 0, true);
    assert [] + [Dot] + target.name == [Dot] + target.name;
  }

  /**
   * An answer name that points at a pointer to itself is rejected: the first
   * hop records the offset, and the second finds it already visited.
   */
  lemma SelfPointerRejected(data: seq<byte>, full: seq<byte>)
    requires |data| >= 3 && IsPointer(data[0])
    requires var o := PointerOffset(data[0], data[1]);
      o + 1 < |full| && IsPointer(full[o]) && PointerOffset(full[o], full[o + 1]) == o
    ensures DecodeLabel(data, full) == Err(RecursivePointer)
  {
    var o := PointerOffset(data[0], data[1]);
    var at := full[o..];
    assert at[0] == full[o] && at[1] == full[o + 1];
    ScanPointer(at, full, [], 0, [], 0, true);
    assert [] + [o] == [o];
    ScanPointer(at, full, [o], 0, [], 0, true);
  }

  /**
   * Wherever it occurs in a name, a pointer to an offset already visited
   * ends the name with an error; a name that starts with one is rejected.
   */
  lemma VisitedPointerRejected(data: seq<byte>, full: seq<byte>, visited: seq<nat>, i: nat, chars: seq<byte>,
                               section: byte, initial: bool)
    requires i + 1 < |data| && IsPointer(data[i]) && PointerOffset(data[i], data[i + 1]) in visited
    ensures Scan(data, full, visited, i, chars, section, initial) == Err(RecursivePointer)
    ensures i == 0 ==> DecodeName(data, full, visited) == Err(RecursivePointer)
  {
    ScanPointer(data, full, visited, i, chars, section, initial);
    ScanPointer(data, full, visited, i, [], 0, true);
  }

  /**
   * Wherever it occurs in a name, a pointer to a new offset beyond the end
   * of the packet ends the name with an error; a name that starts with one
   * is rejected.
   */
  lemma PointerBeyondPacketRejected(data: seq<byte>, full: seq<byte>, visited: seq<nat>, i: nat, chars: seq<byte>,
                                    section: byte, initial: bool)
    requires i + 1 < |data| && IsPointer(data[i])
    requires PointerOffset(data[i], data[i + 1]) !in visited && PointerOffset(data[i], data[i + 1]) > |full|
    ensures Scan(data, full, visited, i, chars, section, initial) == Err(OffsetBeyondPacket)
    ensures i == 0 ==> DecodeName(data, full, visited) == Err(OffsetBeyondPacket)
  {
    ScanPointer(data, full, visited, i, chars, section, initial);
    ScanPointer(data, full, visited, i, [], 0, true);
  }

  /** A pointer byte in the last position of the data has no second byte: the name is cut short. */
  lemma TruncatedPointerRejected(data: seq<byte>, full: seq<byte>, visited: seq<nat>, i: nat, chars: seq<byte>,
                                 section: byte, initial: bool)
    requires i + 1 == |data| && IsPointer(data[i])
    ensures Scan(data, full, visited, i, chars, section, initial) == Err(PointerTooShort)
    ensures i == 0 ==> DecodeName(data, full, visited) == Err(PointerTooShort)
  {
    ScanPointer(data, full, visited, i, chars, section, initial);
    ScanPointer(data, full, visited, i, [], 0, true);
  }
}
