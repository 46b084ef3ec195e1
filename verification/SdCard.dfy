/** emul/z80/sdc.c as an object whose fields the exchange updates. */
module SdCard {
  import opened Words
  import Crc
  import S = SdSpec

  class SDC {
    var initstat: nat
    const recvbuf: array<byte>
    var recvidx: nat
    const sendbuf: array<byte>
    var sendidx: int
    var fp: S.File
    var cmd17bytes: int
    var cmd24bytes: int
    var crc16: word

    ghost function State(): S.Dev
      reads this, recvbuf, sendbuf
    {
      S.Dev(initstat, recvbuf[..], recvidx, sendbuf[..], sendidx, fp, cmd17bytes, cmd24bytes, crc16)
    }

    ghost predicate Valid()
      reads this, recvbuf, sendbuf
    {
      recvbuf != sendbuf && S.Valid(State())
    }

    constructor (image: S.File)
      ensures Valid() && fresh(recvbuf) && fresh(sendbuf)
      ensures exists recv, send, crc :: |recv| == 6 && |send| == 5 && State() == S.Init(recv, send, crc, image)
    {
      recvbuf := new byte[6];
      sendbuf := new byte[5];
      initstat, recvidx, sendidx, fp, cmd17bytes, cmd24bytes := 0, 0, -1, image, -1, -2;
      new;
      assert State() == S.Init(recvbuf[..], sendbuf[..], crc16, image);
    }

    /** sdc_spix */
    method Spix(val: byte) returns (resp: byte)
      requires Valid()
      modifies this, recvbuf, sendbuf
      ensures Valid() && (State(), resp) == S.Spix(old(State()), val)
    {
      resp := 0xff;
      if initstat < 8 {
        initstat := initstat + 1;
        return;
      }
      if sendidx >= 0 {
        resp := sendbuf[sendidx];
        sendidx := sendidx + 1;
        if sendidx == 5 { sendidx := -1; }
        return;
      }
      if cmd17bytes >= 0 {
        resp := ReadByte();
        return;
      }
      if cmd24bytes == -1 {
        if val == 0xff { return; }
        if val == 0xfe {
          cmd24bytes := 0;
        } else {
          cmd24bytes := -2;
        }
        return;
      }
      if cmd24bytes >= 0 {
        WriteByte(val);
        return;
      }
      if recvidx == 0 && (val > 0x7f || val < 0x40) { return; }
      recvbuf[recvidx] := val;
      assert recvbuf[..] == old(recvbuf[..])[recvidx := val];
      recvidx := recvidx + 1;
      if recvidx < 6 { return; }
      recvidx := 0;
      Command();
    }

    method ReadByte() returns (resp: byte)
      requires Valid() && initstat == 12 && cmd17bytes >= 0 && sendidx == -1
      modifies this, sendbuf
      ensures Valid() && (State(), resp) == S.ReadByte(old(State()))
    {
      hide Crc.CardCrc;
      resp := 0xff;
      if fp.File? && fp.pos < |fp.data| {
        resp := fp.data[fp.pos];
        fp := fp.(pos := fp.pos + 1);
      }
      crc16 := Crc.CardCrc(crc16, resp);
      cmd17bytes := cmd17bytes + 1;
      if cmd17bytes == 512 {
        sendbuf[3] := crc16 / 0x100;
        sendbuf[4] := crc16 % 0x100;
        sendidx := 3;
        cmd17bytes := -1;
      }
    }

    method WriteByte(val: byte)
      requires Valid() && initstat == 12 && cmd24bytes >= 0 && cmd17bytes == -1
      modifies this, sendbuf
      ensures Valid() && State() == S.WriteByte(old(State()), val)
    {
      hide Crc.CardCrc;
      if cmd24bytes < 512 {
        fp := S.Putc(fp, val);
        crc16 := Crc.CardCrc(crc16, val);
      } else if cmd24bytes == 512 {
        // the CRC bytes only cause a message
      } else {
        sendbuf[4] := 0x05;
        sendidx := 4;
        cmd24bytes := -3;
      }
      cmd24bytes := cmd24bytes + 1;
    }

    /** Queues a one-byte answer. */
    method Answer(v: byte)
      requires Valid() && cmd24bytes < 0 && initstat >= 8 && recvidx == 0
      modifies `sendidx, sendbuf
      ensures Valid() && State() == S.Reply(old(State()), v)
    {
      sendbuf[4], sendidx := v, 4;
    }

    method Command()
      requires Valid() && initstat >= 8 && recvidx == 0 && sendidx == -1 && cmd17bytes == -1 && cmd24bytes == -2
      modifies this, sendbuf
      ensures Valid() && State() == S.Command(old(State()))
    {
      if initstat < 12 {
        Initialize();
      } else {
        Transfer();
      }
    }

    /** A command frame on a card that is not initialized yet. */
    method Initialize()
      requires Valid() && 8 <= initstat < 12 && recvidx == 0 && sendidx == -1 && cmd17bytes == -1 && cmd24bytes == -2
      modifies `initstat, `sendidx, sendbuf
      ensures Valid() && State() == S.Command(old(State()))
    {
      var cmd := recvbuf[0] % 0x40;
      var arg1: word := (recvbuf[1] as int) * 0x100 + (recvbuf[2] as int);
      var arg2: word := (recvbuf[3] as int) * 0x100 + (recvbuf[4] as int);
      if initstat == 8 {
        if cmd == 0 {
          initstat := initstat + 1;
          Answer(0x01);
        }
      } else if initstat == 9 {
        if cmd == 8 && arg2 == 0x01aa {
          initstat := initstat + 1;
          sendbuf[0], sendbuf[1], sendbuf[2] := 0x01, 0, 0;
          sendbuf[3], sendbuf[4], sendidx := 0x01, 0xaa, 0;
          assert sendbuf[..] == [0x01, 0, 0, 0x01, 0xaa];
        } else {
          initstat := 8;
        }
      } else if initstat == 10 {
        if cmd == 55 {
          initstat := initstat + 1;
          Answer(0x01);
        } else {
          initstat := 8;
        }
      } else if initstat == 11 {
        if cmd == 41 && arg1 == 0x4000 {
          initstat := initstat + 1;
          Answer(0x00);
        } else {
          initstat := 8;
        }
      }
    }

    /** A command frame on an initialized card. */
    method Transfer()
      requires Valid() && initstat == 12 && recvidx == 0 && sendidx == -1 && cmd17bytes == -1 && cmd24bytes == -2
      modifies this, sendbuf
      ensures Valid() && State() == S.Command(old(State()))
    {
      var cmd := recvbuf[0] % 0x40;
      var arg2: word := (recvbuf[3] as int) * 0x100 + (recvbuf[4] as int);
      if cmd == 17 {
        fp := S.Seek(fp, arg2 * 512);
        sendbuf[3], sendbuf[4], sendidx := 0x00, 0xfe, 3;
        cmd17bytes, crc16 := 0, 0;
      } else if cmd == 24 {
        fp := S.Seek(fp, arg2 * 512);
        crc16 := 0;
        Answer(0x00);
        cmd24bytes := -1;
      } else {
        Answer(0x00);
      }
    }
  }
}
