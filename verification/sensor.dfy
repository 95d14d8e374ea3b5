/** Decoding of the SF45 reply payloads: the distance/yaw sample of command
    44 (`readSignalData`, `wait_for_reading`) and the zero-terminated
    16-byte strings of the identification commands (`readStr16`,
    `get_str16_from_packet`). */
module Sensor {
  import opened Common
  import opened Packet
  import opened Transport

  // ---------------------------------------------------------------------
  // Yaw angle.

  /** The most negative and most positive yaw, in hundredths of a degree,
      that the decoding below can produce. */
  const MinCentiYaw := 32001 - 65535
  const MaxCentiYaw := 32000

  /** The yaw word rebased as the scripts do: words above 32000 are taken as
      negative by subtracting 65535. */
  function CentiYaw(raw: nat): (r: int)
    requires raw < 0x10000
    ensures MinCentiYaw <= r <= MaxCentiYaw
    ensures raw <= MaxCentiYaw ==> r == raw
    ensures MaxCentiYaw < raw < 0xFFFF ==> r < 0
  {
    if raw > 32000 then raw - 65535 else raw
  }

  /** The word the sensor sends for a yaw of `centi` hundredths of a degree,
      as the rebasing above reads it. */
  function YawWord(centi: int): (r: nat)
    requires MinCentiYaw <= centi <= MaxCentiYaw
    ensures r < 0xFFFF
  {
    if centi < 0 then centi + 65535 else centi
  }

  /** Every yaw in range survives the round trip through its word. */
  lemma YawRoundTrip(centi: int)
    requires MinCentiYaw <= centi <= MaxCentiYaw
    ensures CentiYaw(YawWord(centi)) == centi
  {
  }

  /** Every word except 0xFFFF is the word of the yaw it decodes to. */
  lemma YawWordOfDecoded(raw: nat)
    requires raw < 0xFFFF
    ensures YawWord(CentiYaw(raw)) == raw
  {
  }

  /** Subtracting 65535 instead of 65536 makes the word 0xFFFF (minus one
      hundredth of a degree in 16-bit two's complement) read as zero, the
      same as the word 0. */
  lemma YawAlias()
    ensures CentiYaw(0xFFFF) == CentiYaw(0) == 0
  {
  }

  /** Decimal degrees, `yawAngle /= 100.0`. */
  function Degrees(centi: int): real
  {
    centi as real / 100.0
  }

  // ---------------------------------------------------------------------
  // Distance and yaw sample.

  /** `readSignalData(packetData)`: the last-return distance in centimetres
      from bytes 4-5 and the yaw in degrees from bytes 6-7, little-endian.
      A packet shorter than 8 bytes raises `IndexError`. */
  function ReadSignalData(p: seq<uint8>): (r: Result<(int, real)>)
    ensures r.Err? <==> |p| < 8
    ensures r.Err? ==> r.error == IndexError
    ensures r.Ok? ==> 0 <= r.value.0 < 0x10000
    ensures r.Ok? ==> r.value.0 % 256 == p[4] && r.value.0 / 256 == p[5]
    ensures r.Ok? ==> Degrees(MinCentiYaw) <= r.value.1 <= Degrees(MaxCentiYaw)
    ensures r.Ok? ==> r.value.1 == Degrees(CentiYaw(p[6] as int + 256 * p[7] as int))
  {
    if |p| < 8 then Err(IndexError)
    else Ok((Le16(p[4], p[5]), Degrees(CentiYaw(Le16(p[6], p[7])))))
  }

  /** A packet whose bytes 4-7 hold a distance and the word of a yaw in
      range reads back as that distance and that yaw. */
  lemma SignalRoundTrip(p: seq<uint8>, dist: nat, centi: int)
    requires dist < 0x10000
    requires MinCentiYaw <= centi <= MaxCentiYaw
    requires |p| >= 8
    requires p[4] == LowByte(dist) && p[5] == HighByte(dist)
    requires p[6] == LowByte(YawWord(centi)) && p[7] == HighByte(YawWord(centi))
    ensures ReadSignalData(p) == Ok((dist, Degrees(centi)))
  {
    WordBytes(dist);
    WordBytes(YawWord(centi));
    YawRoundTrip(centi);
  }

  /** `wait_for_reading(port)`: wait for a command-44 frame; without one the
      reading is `(-1, 0)`, otherwise the distance in metres (`/ 100.0`) and
      the yaw in degrees. */
  function WaitForReading(stream: seq<uint8>): (r: Result<(real, real)>)
    ensures Reply(stream, 44).None? ==> r == Ok((-1.0, 0.0))
    ensures Reply(stream, 44).Some? ==>
      (var p := Reply(stream, 44).value;
       match ReadSignalData(p)
       case Err(e) => r == Err(e)
       case Ok((d, yaw)) => r == Ok((d as real / 100.0, yaw)))
  {
    match Reply(stream, 44)
    case None => Ok((-1.0, 0.0))
    case Some(p) =>
      if |p| < 8 then Err(IndexError)
      else Ok((Le16(p[4], p[5]) as real / 100.0, Degrees(CentiYaw(Le16(p[6], p[7])))))
  }

  /** A sensor answering with a command-44 frame for a distance and a yaw
      in range gives exactly that reading. */
  lemma ReadingFromFrame(write: int, dist: nat, centi: int, rest: seq<uint8>)
    requires dist < 0x10000
    requires MinCentiYaw <= centi <= MaxCentiYaw
    ensures var w := YawWord(centi);
      var frame := BuildPacket(44, write, [LowByte(dist), HighByte(dist), LowByte(w), HighByte(w)]);
      WaitForReading(frame + rest) == Ok((dist as real / 100.0, Degrees(centi)))
  {
    var w := YawWord(centi);
    var data := [LowByte(dist), HighByte(dist), LowByte(w), HighByte(w)];
    var frame := BuildPacket(44, write, data);
    ReplyToBuiltFrame(44, write, data, rest);
    assert frame[4..8] == data;
    assert frame[4] == data[0] && frame[5] == data[1] && frame[6] == data[2] && frame[7] == data[3];
    SignalRoundTrip(frame, dist, centi);
  }

  // ---------------------------------------------------------------------
  // Zero-terminated strings.

  /** The string in bytes `4 + i .. 19` of a packet: it ends at the first
      zero byte or after the sixteenth byte; running off the end of a short
      packet raises `IndexError`. */
  function Str16From(p: seq<uint8>, i: nat): Result<string>
    requires i <= 16
    decreases 16 - i
  {
    if i == 16 then Ok([])
    else if 4 + i >= |p| then Err(IndexError)
    else if p[4 + i] == 0 then Ok([])
    else match Str16From(p, i + 1)
      case Err(e) => Err(e)
      case Ok(t) => Ok([p[4 + i] as char] + t)
  }

  predicate NoZeroFrom(p: seq<uint8>, i: nat)
  {
    forall k :: 4 + i <= k < |p| ==> p[k] != 0
  }

  /** `t` is the packet's bytes from index `from` read as characters, none
      of them zero. */
  predicate Spells(t: string, p: seq<uint8>, from: nat)
  {
    forall k :: 0 <= k < |t| ==> from + k < |p| && t[k] == p[from + k] as char && p[from + k] != 0
  }

  /** What the string at offset `i` is: the packet's bytes from `4 + i` as
      characters, none of them zero, stopped by a zero byte or by the
      sixteen-byte limit; and an error exactly when the packet ends first. */
  lemma {:induction false} Str16FromSpec(p: seq<uint8>, i: nat)
    requires i <= 16
    ensures var r := Str16From(p, i);
      && (r.Err? <==> i < 16 && |p| < 20 && NoZeroFrom(p, i))
      && (r.Err? ==> r.error == IndexError)
      && (r.Ok? ==>
            && i + |r.value| <= 16
            && Spells(r.value, p, 4 + i)
            && (i + |r.value| < 16 ==> 4 + i + |r.value| < |p| && p[4 + i + |r.value|] == 0))
    decreases 16 - i
  {
    if i == 16 {
    } else if 4 + i >= |p| {
    } else if p[4 + i] == 0 {
    } else {
      Str16FromSpec(p, i + 1);
      var r := Str16From(p, i + 1);
      if r.Ok? {
        var s := Str16From(p, i).value;
        assert s == [p[4 + i] as char] + r.value;
        forall k | 0 <= k < |s|
          ensures 4 + i + k < |p| && s[k] == p[4 + i + k] as char && p[4 + i + k] != 0
        {
          if k > 0 {
            assert s[k] == r.value[k - 1];
            assert r.value[k - 1] == p[4 + (i + 1) + (k - 1)] as char;
            assert 4 + (i + 1) + (k - 1) == 4 + i + k;
          }
        }
        assert Spells(s, p, 4 + i);
      } else {
        assert NoZeroFrom(p, i) by {
          forall k | 4 + i <= k < |p|
            ensures p[k] != 0
          {
            if k > 4 + i {
              assert 4 + (i + 1) <= k;
            }
          }
        }
      }
    }
  }

  function Prepend(s: string, r: Result<string>): Result<string>
  {
    match r
    case Err(e) => Err(e)
    case Ok(t) => Ok(s + t)
  }

  lemma PrependNothing(r: Result<string>)
    ensures Prepend([], r) == r
    ensures r.Ok? ==> Prepend(r.value, Ok([])) == r
  {
    if r.Ok? {
      assert [] + r.value == r.value + [] == r.value;
    }
  }

  lemma PrependTwice(s: string, c: string, r: Result<string>)
    ensures Prepend(s, Prepend(c, r)) == Prepend(s + c, r)
  {
    if r.Ok? {
      assert s + (c + r.value) == (s + c) + r.value;
    }
  }

  /** `readStr16(packetData)` and its copy `get_str16_from_packet(packet)`:
      collect the characters of bytes 4 to 19 up to the first zero byte. */
  method ReadStr16(p: seq<uint8>) returns (r: Result<string>)
    ensures r == Str16From(p, 0)
    ensures r.Err? <==> |p| < 20 && NoZeroFrom(p, 0)
    ensures r.Ok? ==> |r.value| <= 16 && Spells(r.value, p, 4)
  {
    Str16FromSpec(p, 0);
    var s: string := [];
    var i := 0;
    PrependNothing(Str16From(p, 0));
    while i < 16
      invariant 0 <= i <= 16
      decreases 16 - i
      invariant Str16From(p, 0) == Prepend(s, Str16From(p, i))
    {
      if 4 + i >= |p| {
        return Err(IndexError);
      }
      if p[4 + i] == 0 {
        break;
      }
      var c := p[4 + i] as char;
      PrependTwice(s, [c], Str16From(p, i + 1));
      s := s + [c];
      i := i + 1;
    }
    assert Str16From(p, 0) == Prepend(s, Ok([]));
    PrependNothing(Ok(s));
    return Ok(s);
  }
}
