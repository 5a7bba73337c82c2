/** Building and taking apart socket packets, controller/talk_module/talk_misc.py. The bytes of one value are whatever
    the `struct` module makes of it; only their number matters here. */
module TalkPackets {
  import opened Basics
  import opened Talk

  /** The table `data_sizes`. */
  function DataSize(t: char): Option<nat> {
    if t == 'c' || t == 'b' || t == 'B' || t == '?' then Some(1)
    else if t == 'h' || t == 'H' then Some(2)
    else if t == 'i' || t == 'I' || t == 'l' || t == 'L' || t == 'f' then Some(4)
    else if t == 'q' || t == 'Q' || t == 'd' then Some(8)
    else None
  }

  /** What a packet must look like; None when the length does not fit its byte, where the source raises. */
  function Packed(command: byte, subCommand: byte, data: Option<seq<seq<byte>>>): Option<seq<byte>> {
    var payload := if data == None then [] else Concat(data.value);
    if |payload| > 255 then None else Some([command, subCommand, |payload|] + payload)
  }

  /** The fields of the returned tuple, in its order: the last two positions of the header swap when there are data. */
  datatype Unpacked = Unpacked(command: byte, second: byte, third: byte, data: Option<seq<seq<byte>>>)

  /** Cutting `b` into pieces of `size` bytes, the last one possibly shorter. */
  function Pieces(b: seq<byte>, size: nat): seq<seq<byte>>
    requires size >= 1
    decreases |b|
  {
    if b == [] then []
    else
      var k := Min(size, |b|);
      [b[..k]] + Pieces(b[k..], size)
  }

  lemma FirstPiece(b: seq<byte>, size: nat)
    requires 1 <= size <= |b|
    ensures Pieces(b, size) == [b[..size]] + Pieces(b[size..], size)
  {
  }

  /** `packet_pack`. */
  method PacketPack(command: byte, subCommand: byte, data: Option<seq<seq<byte>>>) returns (a: Option<seq<byte>>)
    ensures a == Packed(command, subCommand, data)
    ensures a.Some? ==> HasPacket(a.value) && PacketSize(a.value) == |a.value|
    ensures a.Some? ==>
      && a.value[0] == command && a.value[1] == subCommand
      && a.value[2] as int == |a.value| - 3
      && a.value[3..] == if data == None then [] else Concat(data.value)
    ensures a == None <==> data.Some? && |Concat(data.value)| > 255
  {
    var bytes: seq<byte> := [command, subCommand, 0];
    if data == None {
      assert bytes == [command, subCommand, 0] + [];
      return Some(bytes);
    }
    var i := 0;
    while i < |data.value|
      invariant i <= |data.value|
      invariant bytes == [command, subCommand, 0] + Concat(data.value[..i])
    {
      ConcatSnoc(data.value[..i], data.value[i]);
      assert data.value[..i + 1] == data.value[..i] + [data.value[i]];
      Assoc([command, subCommand, 0], Concat(data.value[..i]), data.value[i]);
      bytes := bytes + data.value[i];
      i := i + 1;
    }
    assert data.value[..i] == data.value;
    ghost var payload := Concat(data.value);
    if |bytes| - 3 > 255 {
      return None;
    }
    a := Some(bytes[2 := |bytes| - 3]);
    assert bytes[2 := |payload|] == [command, subCommand, |payload|] + payload;
  }

  /** The number of bytes in as many whole values as it takes to cover `n` bytes. */
  function RoundedUp(n: nat, size: nat): (r: nat)
    requires size >= 1
    ensures n <= r < n + size
    ensures IsWhole(r, size)
    ensures r == n <==> IsWhole(n, size)
  {
    if n == 0 then 0 else if n < size then size else size + RoundedUp(n - size, size)
  }

  /** What `packet_unpack` makes of a packet; None where the source raises: an unknown type, no header, or a last value
      for which the packet has too few bytes. The slices are taken from the whole packet, so a last value that the
      length byte cuts short is completed by whatever follows the data. */
  function Unpack(packet: seq<byte>, dataType: char): Option<Unpacked> {
    match DataSize(dataType)
    case None => None
    case Some(size) =>
      if |packet| < 3 then None
      else if packet[2] == 0 then Some(Unpacked(packet[0], packet[1], 0, None))
      else
        var end := 3 + RoundedUp(packet[2] as nat, size);
        if end > |packet| then None
        else Some(Unpacked(packet[0], packet[2], packet[1], Some(Pieces(packet[3..end], size))))
  }

  /** On a packet that ends where its length byte says, data that are not a whole number of values are refused. */
  lemma BrokenValueIsRefused(packet: seq<byte>, dataType: char)
    requires HasPacket(packet) && |packet| == PacketSize(packet) && DataSize(dataType).Some?
    ensures Unpack(packet, dataType) == None <==> !IsWhole(packet[2] as nat, DataSize(dataType).value)
  {
    assert IsWhole(0, DataSize(dataType).value);
  }

  lemma NoPieces(size: nat)
    requires size >= 1
    ensures Pieces([], size) == [] && RoundedUp(0, size) == 0
  {
  }

  lemma FirstPieceOf(b: seq<byte>, from: nat, to: nat, size: nat)
    requires size >= 1 && from + size <= to <= |b|
    ensures Pieces(b[from..to], size) == [b[from..from + size]] + Pieces(b[from + size..to], size)
  {
    FirstPiece(b[from..to], size);
    assert b[from..to][..size] == b[from..from + size];
    assert b[from..to][size..] == b[from + size..to];
  }

  lemma RoundedStep(n: nat, size: nat)
    requires n > 0 && size >= 1
    ensures RoundedUp(n, size) == size + (if n < size then 0 else RoundedUp(n - size, size))
  {
  }

  /** The loop of `packet_unpack`. */
  method UnpackValues(packet: seq<byte>, size: nat) returns (values: Option<seq<seq<byte>>>)
    requires |packet| >= 3 && size >= 1
    ensures var end := 3 + RoundedUp(packet[2] as nat, size);
      values == if end <= |packet| then Some(Pieces(packet[3..end], size)) else None
  {
    hide *;
    NoPieces(size);
    var data: seq<seq<byte>> := [];
    var f: nat := 3;
    var stop: nat := packet[2] as nat + 3;
    ghost var end := 3 + RoundedUp(packet[2] as nat, size);
    if end <= |packet| {
      assert data + Pieces(packet[f..end], size) == Pieces(packet[3..end], size);
    }
    while f < stop
      invariant 3 <= f <= end && f <= |packet|
      invariant end == f + (if f < stop then RoundedUp(stop - f, size) else 0)
      invariant end <= |packet| ==> data + Pieces(packet[f..end], size) == Pieces(packet[3..end], size)
      decreases stop - f
    {
      RoundedStep(stop - f, size);
      if f + size > |packet| {
        return None;
      }
      if end <= |packet| {
        FirstPieceOf(packet, f, end, size);
        Assoc(data, [packet[f..f + size]], Pieces(packet[f + size..end], size));
      }
      data := data + [packet[f..f + size]];
      f := f + size;
    }
    assert packet[f..f] == [] && data + [] == data;
    values := Some(data);
  }

  /** `packet_unpack`. */
  method PacketUnpack(packet: seq<byte>, dataType: char) returns (u: Option<Unpacked>)
    ensures u == Unpack(packet, dataType)
  {
    if DataSize(dataType) == None {
      return None;
    }
    var size := DataSize(dataType).value;
    if |packet| < 3 {
      return None;
    }
    var command, subCommand, length := packet[0], packet[1], packet[2];
    if length == 0 {
      return Some(Unpacked(command, subCommand, length, None));
    }
    var data := UnpackValues(packet, size);
    if data == None {
      return None;
    }
    u := Some(Unpacked(command, length, subCommand, data));
  }

  /** Values of one width survive packing and unpacking unchanged. */
  lemma {:induction false} PiecesOfConcat(parts: seq<seq<byte>>, size: nat)
    requires size >= 1 && forall p :: p in parts ==> |p| == size
    ensures Pieces(Concat(parts), size) == parts
    ensures IsWhole(|Concat(parts)|, size)
    ensures Concat(parts) == [] <==> parts == []
  {
    if parts != [] {
      PiecesOfConcat(parts[1..], size);
      var b := Concat(parts);
      assert |parts[0]| == size;
      FirstPiece(b, size);
      assert b[..size] == parts[0] && b[size..] == Concat(parts[1..]);
    }
  }

  /** What `packet_unpack` returns for what `packet_pack` built: the command and, if there are any, the values as they
      were; but an empty list comes back as no data at all, and with data the length and the sub-command swap places. */
  lemma UnpackOfPacked(command: byte, subCommand: byte, parts: seq<seq<byte>>, dataType: char)
    requires DataSize(dataType).Some? && |Concat(parts)| <= 255
    requires forall p :: p in parts ==> |p| == DataSize(dataType).value
    ensures var packet := Packed(command, subCommand, Some(parts)).value;
      && HasPacket(packet) && Packets(packet) == [packet]
      && Unpack(packet, dataType) == Some(
           if parts == [] then Unpacked(command, subCommand, 0, None)
           else Unpacked(command, |Concat(parts)|, subCommand, Some(parts)))
  {
    var size := DataSize(dataType).value;
    var payload := Concat(parts);
    PiecesOfConcat(parts, size);
    assert Packed(command, subCommand, Some(parts)) == Some([command, subCommand, |payload|] + payload);
    hide *;
    UnpackOfPayload(command, subCommand, payload, dataType, size);
  }

  lemma UnpackOfPayload(command: byte, subCommand: byte, payload: seq<byte>, dataType: char, size: nat)
    requires size >= 1 && DataSize(dataType) == Some(size) && |payload| <= 255 && IsWhole(|payload|, size)
    ensures var packet := [command, subCommand, |payload|] + payload;
      && HasPacket(packet) && Packets(packet) == [packet]
      && Unpack(packet, dataType) == Some(
           if payload == [] then Unpacked(command, subCommand, 0, None)
           else Unpacked(command, |payload|, subCommand, Some(Pieces(payload, size))))
  {
    PackedIsPacket(command, subCommand, payload);
    hide Pieces, IsWhole, DataSize, Packets;
  }

  lemma PackedIsPacket(command: byte, subCommand: byte, payload: seq<byte>)
    requires |payload| <= 255
    ensures var packet := [command, subCommand, |payload|] + payload;
      HasPacket(packet) && Packets(packet) == [packet] && packet[3..packet[2] as nat + 3] == payload
  {
    var packet := [command, subCommand, |payload|] + payload;
    assert packet[..PacketSize(packet)] == packet && packet[PacketSize(packet)..] == [];
  }

  /** The same in the widths of the types: one byte for 'c', 'b', 'B' and '?', two for 'h' and 'H', four for 'i', 'I',
      'l', 'L' and 'f', eight for 'q', 'Q' and 'd'. No other type is accepted, whatever the packet. */
  lemma UnpackByWidth(command: byte, subCommand: byte, parts: seq<seq<byte>>, dataType: char, width: nat)
    requires parts != [] && |Concat(parts)| <= 255 && forall p :: p in parts ==> |p| == width
    requires || (width == 1 && dataType in "cbB?") || (width == 2 && dataType in "hH")
             || (width == 4 && dataType in "iIlLf") || (width == 8 && dataType in "qQd")
    ensures Unpack([command, subCommand, |Concat(parts)|] + Concat(parts), dataType) ==
            Some(Unpacked(command, |Concat(parts)|, subCommand, Some(parts)))
  {
    assert DataSize(dataType) == Some(width);
    hide Unpack, Concat;
    UnpackOfPacked(command, subCommand, parts, dataType);
  }

  lemma OtherTypesAreRefused(packet: seq<byte>, dataType: char)
    requires dataType !in "cbB?hHiIlLfqQd"
    ensures Unpack(packet, dataType) == None
  {
  }

  lemma UnpackWithoutData(command: byte, subCommand: byte, dataType: char)
    requires DataSize(dataType).Some?
    ensures var packet := Packed(command, subCommand, None).value;
      HasPacket(packet) && Unpack(packet, dataType) == Some(Unpacked(command, subCommand, 0, None))
  {
  }

  /** The intended result is (command, sub-command, length, data). Packing and unpacking gives it exactly when there
      are no data, or there are values and the sub-command happens to equal the number of data bytes. */
  lemma UnpackUndoesPackIff(command: byte, subCommand: byte, data: Option<seq<seq<byte>>>, dataType: char)
    requires DataSize(dataType).Some? && Packed(command, subCommand, data).Some?
    requires data.Some? ==> forall p :: p in data.value ==> |p| == DataSize(dataType).value
    ensures var packet := Packed(command, subCommand, data).value;
      var intended := Some(Unpacked(command, subCommand, packet[2], data));
      HasPacket(packet) &&
      (Unpack(packet, dataType) == intended <==> data == None || (data.value != [] && subCommand == packet[2]))
  {
    if data == None {
      UnpackWithoutData(command, subCommand, dataType);
    } else {
      UnpackOfPacked(command, subCommand, data.value, dataType);
    }
  }

  /** For every packet that can be unpacked, the fields are in the intended order exactly when there are no data or the
      sub-command equals the length. */
  lemma FieldsInOrderIff(packet: seq<byte>, dataType: char)
    requires Unpack(packet, dataType).Some?
    ensures var u := Unpack(packet, dataType).value;
      u.command == packet[0] && {u.second, u.third} == {packet[1], packet[2]} &&
      (u.second == packet[1] && u.third == packet[2] <==> packet[2] == 0 || packet[1] == packet[2])
  {
  }
}
