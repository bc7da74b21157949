/**
 * Status replies, `cseries_Status`: the reply bytes are decoded as UTF-8, stripped of trailing
 * whitespace, then of trailing ETX characters, then of leading `/`; the first character left is
 * the address, the second the status code and the rest the data. `parse` classifies the status
 * code against the status table.
 */
module StatusFrame {
  import opened Base
  import opened Py
  import Utf8
  import opened StatusTable

  const Etx: char := '\U{3}'


  /** `response.rstrip().rstrip('\x03').lstrip('/')`. */
  function Info(text: string): string
  {
    LStrip(Trimmed(text), Only({'/'}))
  }

  /** Address, status code and data of a reply. */
  datatype Reply = Reply(address: char, status: char, data: string)

  /** What constructing `cseries_Status` from a reply comes to. */
  datatype ReplyDecode =
    | Undecodable                        // UnicodeDecodeError: response is None, no field is set
    | Truncated                          // fewer than two characters left: `info[0]` or `info[1]` raises IndexError
    | Decoded(text: string, reply: Reply)

  function DecodeReply(raw: seq<byte>): (r: ReplyDecode)
    ensures r.Undecodable? <==> Utf8.Decode(raw).None?
    ensures r.Decoded? ==> Utf8.Decode(raw) == Some(r.text) && [r.reply.address, r.reply.status] + r.reply.data == Info(r.text)
    ensures r.Truncated? ==> Utf8.Decode(raw).Some? && |Info(Utf8.Decode(raw).value)| < 2
  {
    match Utf8.Decode(raw)
    case None => Undecodable
    case Some(text) =>
      var info := Info(text);
      if |info| < 2 then Truncated
      else
        SplitTwo(info);
        Decoded(text, Reply(info[0], info[1], info[2..]))
  }

  /** A string of two or more characters is its first two followed by the rest. */
  lemma SplitTwo(s: string)
    requires |s| >= 2
    ensures [s[0], s[1]] + s[2..] == s
  {
  }

  /** `n` ETX characters. */
  function Etxs(n: nat): (r: string)
    ensures |r| == n && forall i :: 0 <= i < n ==> r[i] == Etx
  {
    if n == 0 then [] else Etxs(n - 1) + [Etx]
  }

  predicate AllSpace(s: string) { forall i :: 0 <= i < |s| ==> IsSpace(s[i]) }

  /** Stripping a whitespace-only tail recovers what came before it, if that does not end in whitespace. */
  lemma {:induction false} RStripTail(s: string, tail: string, chars: Strip)
    requires forall i :: 0 <= i < |tail| ==> Strips(chars, tail[i])
    requires s == [] || !Strips(chars, s[|s| - 1])
    ensures RStrip(s + tail, chars) == s
    decreases |tail|
  {
    if tail != [] {
      var t := s + tail;
      assert t[..|t| - 1] == s + tail[..|tail| - 1];
      RStripTail(s, tail[..|tail| - 1], chars);
    } else {
      assert s + tail == s;
    }
  }

  /** Stripping a run of leading slashes recovers what follows, if that does not start with one. */
  lemma {:induction false} LStripHead(head: string, s: string)
    requires forall i :: 0 <= i < |head| ==> head[i] == '/'
    requires s == [] || s[0] != '/'
    ensures LStrip(head + s, Only({'/'})) == s
    decreases |head|
  {
    if head != [] {
      var t := head + s;
      assert t[0] == '/' && t[1..] == head[1..] + s;
      LStripHead(head[1..], s);
    } else {
      assert head + s == s;
    }
  }

  /** Round trip of the text form: a reply `/` + address + status + data, then ETXs, then whitespace, splits back into its parts. */
  lemma InfoOfReply(a: char, st: char, d: string, etx: nat, ws: string)
    requires a != '/'
    requires AllSpace(ws)
    requires ([st] + d)[|d|] != Etx
    requires etx == 0 ==> !IsSpace(([st] + d)[|d|])
    ensures Info("/" + [a] + [st] + d + Etxs(etx) + ws) == [a, st] + d
  {
    var core := [a, st] + d;
    var last := ([st] + d)[|d|];
    assert core[|core| - 1] == last;
    var slashCore := "/" + core;
    assert slashCore[|slashCore| - 1] == last;
    var w := slashCore + Etxs(etx);
    assert w[|w| - 1] == if etx == 0 then last else Etx;
    var text := "/" + [a] + [st] + d + Etxs(etx) + ws;
    assert text == w + ws;
    RStripTail(w, ws, Whitespace);
    assert RStrip(text, Whitespace) == w;
    RStripTail(slashCore, Etxs(etx), Only({Etx}));
    assert RStrip(w, Only({Etx})) == slashCore;
    LStripHead("/", core);
    assert LStrip(slashCore, Only({'/'})) == core;
  }

  /**
   * Round trip of the wire form: the UTF-8 bytes of `/` + address + status + data + ETX* + whitespace
   * decode to that address, status and data (the address must not be `/`, which `lstrip` would eat,
   * and the data must not end in what the two `rstrip` calls remove).
   */
  lemma DecodeReplyOfFrame(a: char, st: char, d: string, etx: nat, ws: string)
    requires a != '/'
    requires AllSpace(ws)
    requires ([st] + d)[|d|] != Etx
    requires etx == 0 ==> !IsSpace(([st] + d)[|d|])
    ensures DecodeReply(Utf8.Encode("/" + [a] + [st] + d + Etxs(etx) + ws)).Decoded?
    ensures DecodeReply(Utf8.Encode("/" + [a] + [st] + d + Etxs(etx) + ws)).reply == Reply(a, st, d)
  {
    var text := "/" + [a] + [st] + d + Etxs(etx) + ws;
    Utf8.DecodeEncode(text);
    InfoOfReply(a, st, d, etx, ws);
    var info := [a, st] + d;
    assert info[2..] == d;
  }

  /** `response.rstrip().rstrip('\x03')`: the reply before the `lstrip`. */
  function Trimmed(text: string): string
  {
    RStrip(RStrip(text, Whitespace), Only({Etx}))
  }

  /** What precedes the info is a run of slashes at the start of the trimmed text. */
  lemma InfoWithin(text: string)
    ensures var e := Trimmed(text); var info := Info(text);
      && |info| <= |e| <= |text| && e == text[..|e|] && info == e[|e| - |info|..]
      && (forall i :: 0 <= i < |e| - |info| ==> text[i] == '/')
  {
    var r := RStrip(text, Whitespace);
    var e := RStrip(r, Only({Etx}));
    assert e == text[..|e|] by {
      assert r <= text && e <= r;
    }
    var info := LStrip(e, Only({'/'}));
    forall i | 0 <= i < |e| - |info| ensures text[i] == '/' {
      assert Strips(Only({'/'}), e[i]);
      assert text[i] == e[i];
    }
  }

  /** What follows the trimmed text is whitespace and ETX characters only. */
  lemma TrimmedTail(text: string)
    ensures forall i :: |Trimmed(text)| <= i < |text| ==> IsSpace(text[i]) || text[i] == Etx
  {
    var r := RStrip(text, Whitespace);
    var e := RStrip(r, Only({Etx}));
    forall i | |e| <= i < |text| ensures IsSpace(text[i]) || text[i] == Etx {
      if i < |r| { assert text[i] == r[i]; }
    }
  }

  /** The info never starts with '/' nor ends with ETX. */
  lemma InfoEnds(text: string)
    ensures var info := Info(text); info != [] ==> info[0] != '/' && info[|info| - 1] != Etx
  {
    var e := Trimmed(text);
    var info := LStrip(e, Only({'/'}));
    if info != [] {
      assert !Strips(Only({'/'}), info[0]);
      assert info[|info| - 1] == e[|e| - 1] by {
        assert info == e[|e| - |info|..];
      }
      assert !Strips(Only({Etx}), e[|e| - 1]);
    }
  }

  /** The bytes of the idle, error-free reply from address '0' decode to its text. */
  lemma IdleReplyText()
    ensures Utf8.Decode([0x2F, 0x30, 0x60, 0x0D]) == Some("/0`\r")
  {
    assert Utf8.Encode("/0`\r") == [0x2F, 0x30, 0x60, 0x0D] by {
      Utf8.EncodeAscii("/0`\r");
    }
    Utf8.DecodeEncode("/0`\r");
  }

  /** The info of that reply is its address and status code. */
  lemma IdleReplyInfo()
    ensures Info("/0`\r") == "0`"
  {
    InfoOfReply('0', '`', "", 0, "\r");
    assert "/" + ['0'] + ['`'] + "" + Etxs(0) + "\r" == "/0`\r";
  }

  /** The reply `/0` + "`" + CR: address '0', idle, error free, healthy, no data. */
  lemma IdleErrorFreeReply()
    ensures DecodeReply([0x2F, 0x30, 0x60, 0x0D]) == Decoded("/0`\r", Reply('0', '`', ""))
    ensures Lookup('`') == Some(StatusEntry("STATUS_IDLE_ERROR_FREE", '`', "Error Free", Idle, true))
  {
    IdleReplyText();
    IdleReplyInfo();
    LookupAt(0);
  }

  /** An unrecognised status such as 'x' is reported as not healthy: no table entry carries it. */
  lemma UnknownCodeUnhealthy()
    ensures Lookup('x').None?
  {
    RecognizedCodes('x');
  }
}
