/** AX.25 UI frames (sections 3.12 and 4.3.3.6 of AX.25 v2.2) turned into TNC2
    text "SRC>DST[,PATH]:INFO": the converter, the frame encoder it must undo,
    and what the text still says about the frame. */
module Tnc2 {
  import opened Basics
  import Decimals
  import Kiss

  // ----- The converter -----

  /** Python's str.isspace on the 7-bit characters an address can hold. */
  predicate IsSpace(c: char) { 9 <= c as int <= 13 || 28 <= c as int <= 32 }

  function StripLeft(s: string): string {
    if s != [] && IsSpace(s[0]) then StripLeft(s[1..]) else s
  }

  function StripRight(s: string): string {
    if s != [] && IsSpace(s[|s| - 1]) then StripRight(s[..|s| - 1]) else s
  }

  function CallChars(raw: seq<byte>): string {
    if raw == [] then "" else CallChars(raw[..|raw| - 1]) + [(raw[|raw| - 1] / 2) as char]
  }

  lemma {:induction false} CallCharsAre(raw: seq<byte>, call: string)
    requires |raw| == |call| && forall i :: 0 <= i < |raw| ==> (raw[i] / 2) as char == call[i]
    ensures CallChars(raw) == call
  {
    if raw != [] {
      var n := |raw| - 1;
      CallCharsAre(raw[..n], call[..n]);
      assert call[..n] + [call[n]] == call;
    }
  }

  datatype Decoded = Decoded(text: string, ssid: nat, end: bool)

  /** One 7-byte address: call with optional "-SSID", and the extension bit. */
  function DecodeAddress(raw: seq<byte>): Decoded {
    if |raw| < 7 then Decoded("", 0, true)
    else
      var call := StripRight(StripLeft(CallChars(raw[..6])));
      var ssid := (raw[6] / 2) % 16;
      Decoded(if ssid != 0 then call + "-" + Decimals.Print(ssid) else call, ssid, raw[6] % 2 == 1)
  }

  /** The addresses from offset i on, and the offset behind the last one read. */
  function ReadAddresses(data: seq<byte>, i: nat, found: seq<string>): (seq<string>, nat)
    decreases |data| - i
  {
    if i + 7 <= |data| && |found| < 10 then
      var a := DecodeAddress(data[i..i + 7]);
      var found' := if a.text != "" then found + [a.text] else found;
      if a.end then (found', i + 7) else ReadAddresses(data, i + 7, found')
    else (found, i)
  }

  function Join(parts: seq<string>): string {
    if parts == [] then ""
    else if |parts| == 1 then parts[0]
    else parts[0] + "," + Join(parts[1..])
  }

  /** x & 0xEF on one octet: the poll bit cleared. */
  function WithoutPoll(control: byte): byte {
    if (control / 16) % 2 == 1 then control - 16 else control
  }

  /** Where the AX.25 frame starts: behind a command byte for port 0 to 3. */
  function CommandLength(frame: seq<byte>): nat
    requires |frame| >= 2
  {
    if frame[0] in {0x00, 0x10, 0x20, 0x30} && frame[1] % 2 == 0 then 1 else 0
  }

  function Render(addresses: seq<string>, payload: string): string
    requires |addresses| >= 2
  {
    var path := Join(addresses[2..]);
    if path != "" then addresses[1] + ">" + addresses[0] + "," + path + ":" + payload
    else addresses[1] + ">" + addresses[0] + ":" + payload
  }

  /** The text of a frame, if it is a UI frame without layer 3. The payload
      decoder is a parameter. */
  function Convert(frame: seq<byte>, decode: seq<byte> -> string): Option<string> {
    if |frame| < 16 then None
    else
      var data := frame[CommandLength(frame)..];
      if |data| < 16 then None
      else
        var read := ReadAddresses(data, 0, []);
        ConvertBody(read.0, data, read.1, decode)
  }

  /** Control field, PID and payload, which start behind the addresses at i. */
  function ConvertBody(
    addresses: seq<string>, data: seq<byte>, i: nat, decode: seq<byte> -> string): Option<string>
  {
    if |addresses| < 2 || i + 2 > |data| then None
    else if WithoutPoll(data[i]) != 0x03 then None
    else if data[i + 1] != 0xF0 then None
    else Some(Render(addresses, decode(data[i + 2..])))
  }

  /** One turn of the loop over 7-byte addresses. */
  method ReadOneAddress(data: seq<byte>, i: nat, found: seq<string>) returns (addrs: seq<string>, end: bool)
    requires i + 7 <= |data| && |found| < 10
    ensures ReadAddresses(data, i, found) == if end then (addrs, i + 7) else ReadAddresses(data, i + 7, addrs)
  {
    var a := DecodeAddress(data[i..i + 7]);
    ReadStep(data, i, found, a);
    addrs := if a.text != "" then found + [a.text] else found;
    end := a.end;
  }

  /** The loop. */
  method ReadAddressField(data: seq<byte>) returns (addrs: seq<string>, i: nat)
    ensures (addrs, i) == ReadAddresses(data, 0, [])
  {
    addrs, i := [], 0;
    ghost var all := ReadAddresses(data, 0, []);
    var end := false;
    while !end && i + 7 <= |data| && |addrs| < 10
      invariant 0 <= i <= |data|
      invariant (if end then (addrs, i) else ReadAddresses(data, i, addrs)) == all
      decreases !end, |data| - i
    {
      addrs, end := ReadOneAddress(data, i, addrs);
      i := i + 7;
    }
  }

  lemma ReadStep(data: seq<byte>, i: nat, found: seq<string>, a: Decoded)
    requires i + 7 <= |data| && |found| < 10 && a == DecodeAddress(data[i..i + 7])
    ensures var found' := if a.text != "" then found + [a.text] else found;
            ReadAddresses(data, i, found) == if a.end then (found', i + 7) else ReadAddresses(data, i + 7, found')
  {
  }

  /** The conversion as it runs. */
  method ConvertFrame(frame: seq<byte>, decode: seq<byte> -> string) returns (text: Option<string>)
    ensures text == Convert(frame, decode)
  {
    if |frame| < 16 {
      return None;
    }
    var offset := 0;
    if frame[0] in {0x00, 0x10, 0x20, 0x30} {
      if frame[1] % 2 == 0 {
        offset := 1;
      }
    }
    var data := frame[offset..];
    if |data| < 16 {
      return None;
    }
    var addrs, i := ReadAddressField(data);
    if |addrs| < 2 || i + 2 > |data| {
      return None;
    }
    var control, pid, info := data[i], data[i + 1], data[i + 2..];
    if WithoutPoll(control) != 0x03 {
      return None;
    }
    if pid != 0xF0 {
      return None;
    }
    text := Some(Render(addrs, decode(info)));
  }

  // ----- The encoder of AX.25 v2.2 -----

  /** One station address with the bits of the SSID octet that carry no name:
      the C or H bit and the two reserved bits. */
  datatype Address = Address(call: string, ssid: nat, flag: bool, reserved: nat)

  predicate CallChar(c: char) { 'A' <= c <= 'Z' || '0' <= c <= '9' }

  predicate ValidAddress(a: Address) {
    && 1 <= |a.call| <= 6
    && (forall i :: 0 <= i < |a.call| ==> CallChar(a.call[i]))
    && a.ssid < 16 && a.reserved < 4
  }

  predicate ValidAddresses(addresses: seq<Address>) {
    forall i :: 0 <= i < |addresses| ==> ValidAddress(addresses[i])
  }

  function EncodeAddress(a: Address, end: bool): (raw: seq<byte>)
    requires ValidAddress(a)
    ensures |raw| == 7
  {
    seq(6, i requires 0 <= i < 6 => if i < |a.call| then CallOctet(a.call[i]) else 0x40) +
    [(if a.flag then 128 else 0) + 32 * a.reserved + 2 * a.ssid + (if end then 1 else 0)]
  }

  function CallOctet(c: char): byte
    requires CallChar(c)
  {
    2 * (c as int)
  }

  /** The address field: the extension bit ends it. */
  function EncodeAddresses(addresses: seq<Address>): (raw: seq<byte>)
    requires addresses != [] && ValidAddresses(addresses)
    ensures |raw| == 7 * |addresses|
  {
    if |addresses| == 1 then EncodeAddress(addresses[0], true)
    else EncodeAddress(addresses[0], false) + EncodeAddresses(addresses[1..])
  }

  function EncodeFrame(addresses: seq<Address>, control: byte, pid: byte, info: seq<byte>): seq<byte>
    requires addresses != [] && ValidAddresses(addresses)
  {
    EncodeAddresses(addresses) + [control, pid] + info
  }

  /** How a station is written in TNC2 text. */
  function AddressText(a: Address): string {
    if a.ssid != 0 then a.call + "-" + Decimals.Print(a.ssid) else a.call
  }

  function AddressTexts(addresses: seq<Address>): (texts: seq<string>)
    ensures |texts| == |addresses|
    ensures forall i :: 0 <= i < |texts| ==> texts[i] == AddressText(addresses[i])
  {
    seq(|addresses|, i requires 0 <= i < |addresses| => AddressText(addresses[i]))
  }

  // ----- Converting undoes encoding -----

  lemma {:induction false} StripPadding(call: string, n: nat)
    requires call != [] && forall i :: 0 <= i < |call| ==> CallChar(call[i])
    ensures StripRight(call + seq(n, _ => ' ')) == call
    decreases n
  {
    var padded := call + seq(n, _ => ' ');
    if n > 0 {
      assert padded[..|padded| - 1] == call + seq(n - 1, _ => ' ');
      StripPadding(call, n - 1);
    } else {
      assert padded == call;
      assert CallChar(call[|call| - 1]);
    }
  }

  lemma {:induction false} StripBlanksLeft(n: nat, s: string)
    ensures StripLeft(seq(n, _ => ' ') + s) == StripLeft(s)
    decreases n
  {
    var padded := seq(n, _ => ' ') + s;
    if n > 0 {
      assert padded[1..] == seq(n - 1, _ => ' ') + s;
      StripBlanksLeft(n - 1, s);
    } else {
      assert padded == s;
    }
  }

  /** Blanks on either side of a call do not count, and a field of blanks is empty. */
  lemma BlanksDoNotCount(before: nat, call: string, after: nat)
    requires forall i :: 0 <= i < |call| ==> CallChar(call[i])
    ensures StripRight(StripLeft(seq(before, _ => ' ') + (call + seq(after, _ => ' ')))) == call
  {
    var right := call + seq(after, _ => ' ');
    StripBlanksLeft(before, right);
    if call == [] {
      assert right == seq(after, _ => ' ') + [];
      StripBlanksLeft(after, []);
    } else {
      assert CallChar(call[0]);
      StripPadding(call, after);
    }
  }

  /** An address of blanks without an SSID is passed over. */
  lemma BlankAddressSkipped(data: seq<byte>, i: nat, found: seq<string>)
    requires i + 7 <= |data| && |found| < 10
    requires (forall k :: i <= k < i + 6 ==> data[k] / 2 == 0x20) && (data[i + 6] / 2) % 16 == 0
    ensures ReadAddresses(data, i, found) ==
            if data[i + 6] % 2 == 1 then (found, i + 7) else ReadAddresses(data, i + 7, found)
  {
    var raw := data[i..i + 7];
    forall k | 0 <= k < 6 ensures raw[k] / 2 == 0x20 {
      assert raw[k] == data[i + k];
    }
    CallCharsAre(raw[..6], seq(6, _ => ' ') + ([] + seq(0, _ => ' ')));
    BlanksDoNotCount(6, [], 0);
    assert DecodeAddress(raw).text == "";
    ReadStep(data, i, found, DecodeAddress(raw));
  }

  lemma AddressRoundTrip(a: Address, end: bool)
    requires ValidAddress(a)
    ensures DecodeAddress(EncodeAddress(a, end)) == Decoded(AddressText(a), a.ssid, end)
  {
    var raw := EncodeAddress(a, end);
    var padded := a.call + seq(6 - |a.call|, _ => ' ');
    forall i | 0 <= i < 6 ensures (raw[i] / 2) as char == padded[i] {
      if i < |a.call| {
        assert CallChar(a.call[i]);
      }
    }
    CallCharsAre(raw[..6], padded);
    assert CallChar(padded[0]);
    assert StripLeft(padded) == padded;
    StripPadding(a.call, 6 - |a.call|);
    SsidOctet(a, end);
  }

  lemma SsidOctet(a: Address, end: bool)
    requires ValidAddress(a)
    ensures var octet := EncodeAddress(a, end)[6]; (octet / 2) % 16 == a.ssid && (octet % 2 == 1 <==> end)
  {
  }

  lemma AddressTextNonempty(a: Address)
    requires ValidAddress(a)
    ensures AddressText(a) != ""
  {
  }

  lemma EncodeUnfold(addresses: seq<Address>)
    requires addresses != [] && ValidAddresses(addresses)
    ensures EncodeAddresses(addresses) ==
            EncodeAddress(addresses[0], |addresses| == 1) +
            (if |addresses| == 1 then [] else EncodeAddresses(addresses[1..]))
  {
  }

  lemma SliceBehind(head: seq<byte>, rest: seq<byte>, i: nat, j: nat)
    requires |head| <= i <= j <= |head| + |rest|
    ensures (head + rest)[i..j] == rest[i - |head|..j - |head|]
  {
  }

  lemma {:induction false} EncodedAt(addresses: seq<Address>, k: nat)
    requires k < |addresses| && ValidAddresses(addresses)
    ensures EncodeAddresses(addresses)[7 * k..7 * k + 7] == EncodeAddress(addresses[k], k == |addresses| - 1)
    decreases k
  {
    EncodeUnfold(addresses);
    if k > 0 {
      var head, rest := EncodeAddress(addresses[0], false), EncodeAddresses(addresses[1..]);
      EncodedAt(addresses[1..], k - 1);
      SliceBehind(head, rest, 7 * k, 7 * k + 7);
    }
  }

  lemma ReadOne(data: seq<byte>, i: nat, found: seq<string>, a: Address, end: bool, next: nat, more: seq<string>)
    requires ValidAddress(a) && |found| < 10 && next == i + 7 <= |data|
    requires data[i..next] == EncodeAddress(a, end) && more == found + [AddressText(a)]
    ensures ReadAddresses(data, i, found) == if end then (more, next) else ReadAddresses(data, next, more)
  {
    AddressRoundTrip(a, end);
    AddressTextNonempty(a);
  }

  /** data holds the k-th encoded address in its place. */
  ghost predicate Holds(data: seq<byte>, addresses: seq<Address>, k: nat)
    requires k < |addresses| && ValidAddresses(addresses)
  {
    7 * k + 7 <= |data| && data[7 * k..7 * k + 7] == EncodeAddress(addresses[k], k == |addresses| - 1)
  }

  lemma HoldsInWhole(addresses: seq<Address>, data: seq<byte>, k: nat)
    requires k < |addresses| && ValidAddresses(addresses) && EncodeAddresses(addresses) <= data
    ensures Holds(data, addresses, k)
  {
    EncodedAt(addresses, k);
    PrefixSlice(EncodeAddresses(addresses), data, 7 * k, 7 * k + 7);
  }

  lemma HoldsInPart(addresses: seq<Address>, data: seq<byte>, k: nat)
    requires k < |addresses| && ValidAddresses(addresses) && data <= EncodeAddresses(addresses) && 7 * k + 7 <= |data|
    ensures Holds(data, addresses, k)
  {
    EncodedAt(addresses, k);
    PrefixSlice(data, EncodeAddresses(addresses), 7 * k, 7 * k + 7);
  }

  /** The k-th encoded address yields its text and leads on to the next. */
  lemma ReadNext(addresses: seq<Address>, data: seq<byte>, texts: seq<string>, k: nat)
    requires k < |addresses| && k < 10 && ValidAddresses(addresses) && texts == AddressTexts(addresses)
    requires Holds(data, addresses, k)
    ensures ReadAddresses(data, 7 * k, texts[..k]) ==
            if k == |addresses| - 1 then (texts, 7 * |addresses|)
            else ReadAddresses(data, 7 * (k + 1), texts[..k + 1])
  {
    TakeNext(texts, k);
    ReadOne(data, 7 * k, texts[..k], addresses[k], k == |addresses| - 1, 7 * (k + 1), texts[..k + 1]);
  }

  /** Reading from the k-th encoded address on finds the rest of them. */
  lemma {:induction false} ReadFrom(addresses: seq<Address>, data: seq<byte>, texts: seq<string>, k: nat)
    requires k < |addresses| <= 10 && ValidAddresses(addresses) && texts == AddressTexts(addresses)
    requires EncodeAddresses(addresses) <= data
    ensures ReadAddresses(data, 7 * k, texts[..k]) == (texts, 7 * |addresses|)
    decreases |addresses| - k
  {
    HoldsInWhole(addresses, data, k);
    ReadNext(addresses, data, texts, k);
    if k < |addresses| - 1 {
      ReadFrom(addresses, data, texts, k + 1);
    }
  }

  lemma FirstOctet(a: Address, end: bool)
    requires ValidAddress(a)
    ensures var octet := EncodeAddress(a, end)[0]; octet > 0x30 && octet % 2 == 0
  {
    assert CallChar(a.call[0]);
  }

  /** The command byte is told from the first address octet. */
  lemma CommandByteFound(command: seq<byte>, addresses: seq<Address>, rest: seq<byte>)
    requires command in {[], [0x00], [0x10], [0x20], [0x30]}
    requires 2 <= |addresses| && ValidAddresses(addresses)
    ensures var body := EncodeAddresses(addresses) + rest;
            (command + body)[CommandLength(command + body)..] == body
  {
    var body := EncodeAddresses(addresses) + rest;
    EncodeUnfold(addresses);
    FirstOctet(addresses[0], false);
    assert body[0] == EncodeAddress(addresses[0], false)[0];
    CommandLengthOf(command, body);
  }

  lemma CommandLengthOf(command: seq<byte>, body: seq<byte>)
    requires command in {[], [0x00], [0x10], [0x20], [0x30]}
    requires |body| >= 2 && body[0] > 0x30 && body[0] % 2 == 0
    ensures (command + body)[CommandLength(command + body)..] == body
  {
    if command == [] {
      assert command + body == body;
    }
  }

  /** Every well-formed frame of two to ten stations, with or without a command
      byte for port 0 to 3 in front, becomes its text exactly when it is a UI
      frame (poll bit or not) without layer 3, and is refused otherwise. The C,
      H and reserved bits do not appear in the text. */
  lemma ConvertUndoesEncode(
    command: seq<byte>, addresses: seq<Address>, control: byte, pid: byte, info: seq<byte>,
    decode: seq<byte> -> string)
    requires command in {[], [0x00], [0x10], [0x20], [0x30]}
    requires 2 <= |addresses| <= 10 && ValidAddresses(addresses)
    ensures Convert(command + EncodeFrame(addresses, control, pid, info), decode) ==
            if control in {0x03, 0x13} && pid == 0xF0
            then Some(Render(AddressTexts(addresses), decode(info)))
            else None
  {
    var address, rest := EncodeAddresses(addresses), [control, pid] + info;
    assert EncodeFrame(addresses, control, pid, info) == address + rest;
    CommandByteFound(command, addresses, rest);
    ReadFromStart(addresses, rest);
    ConvertVia(command + (address + rest), address + rest, AddressTexts(addresses), |address|, decode);
    ConvertBodyOf(AddressTexts(addresses), address, control, pid, info, decode);
  }

  lemma ReadFromStart(addresses: seq<Address>, rest: seq<byte>)
    requires 1 <= |addresses| <= 10 && ValidAddresses(addresses)
    ensures ReadAddresses(EncodeAddresses(addresses) + rest, 0, [])
         == (AddressTexts(addresses), |EncodeAddresses(addresses)|)
  {
    ReadFrom(addresses, EncodeAddresses(addresses) + rest, AddressTexts(addresses), 0);
    assert AddressTexts(addresses)[..0] == [];
  }

  lemma ConvertVia(frame: seq<byte>, body: seq<byte>, texts: seq<string>, n: nat, decode: seq<byte> -> string)
    requires 16 <= |body| <= |frame| && frame[CommandLength(frame)..] == body
    requires ReadAddresses(body, 0, []) == (texts, n)
    ensures Convert(frame, decode) == ConvertBody(texts, body, n, decode)
  {
  }

  lemma ConvertBodyOf(
    texts: seq<string>, address: seq<byte>, control: byte, pid: byte, info: seq<byte>,
    decode: seq<byte> -> string)
    requires |texts| >= 2
    ensures ConvertBody(texts, address + ([control, pid] + info), |address|, decode) ==
            if control in {0x03, 0x13} && pid == 0xF0 then Some(Render(texts, decode(info))) else None
  {
    var body := address + ([control, pid] + info);
    assert body[|address|] == control && body[|address| + 1] == pid;
    assert body[|address| + 2..] == info;
  }

  /** From the wire to the text: a KISS stream that carries the frame, cut into
      any chunks, on a decoder between frames. */
  lemma WireToText(
    start: Kiss.State, chunks: seq<seq<byte>>, port: nat, addresses: seq<Address>, control: byte,
    info: seq<byte>, decode: seq<byte> -> string)
    requires Kiss.BetweenFrames(start)
    requires port < 4 && control in {0x03, 0x13}
    requires 2 <= |addresses| <= 10 && ValidAddresses(addresses)
    requires Flatten(chunks) == Kiss.Encode([16 * port] + EncodeFrame(addresses, control, 0xF0, info))
    ensures var frames := Kiss.FeedChunks(start, chunks).1;
            |frames| == 1 &&
            Convert(frames[0], decode) == Some(Render(AddressTexts(addresses), decode(info)))
  {
    var payload := [16 * port] + EncodeFrame(addresses, control, 0xF0, info);
    ConvertUndoesEncode([16 * port], addresses, control, 0xF0, info, decode);
    WireVia(start, chunks, payload, Some(Render(AddressTexts(addresses), decode(info))), decode);
  }

  lemma WireVia(
    start: Kiss.State, chunks: seq<seq<byte>>, payload: seq<byte>, text: Option<string>, decode: seq<byte> -> string)
    requires Kiss.BetweenFrames(start) && payload != [] && Flatten(chunks) == Kiss.Encode(payload)
    requires Convert(payload, decode) == text
    ensures var frames := Kiss.FeedChunks(start, chunks).1; |frames| == 1 && Convert(frames[0], decode) == text
  {
    Kiss.DecodeOne(start, payload, chunks);
  }

  // ----- Frames that are refused -----

  /** What follows the addresses that were read is not a control field but the first
      octet of an address: even, so no UI frame. */
  lemma AddressIsNoControl(addresses: seq<Address>, data: seq<byte>, k: nat)
    requires k < |addresses| && ValidAddresses(addresses) && 7 * k < |data|
    requires EncodeAddresses(addresses) <= data || data <= EncodeAddresses(addresses)
    ensures WithoutPoll(data[7 * k]) != 0x03
  {
    EncodedAt(addresses, k);
    var all, octet := EncodeAddresses(addresses), EncodeAddress(addresses[k], k == |addresses| - 1)[0];
    assert all[7 * k] == all[7 * k..7 * k + 7][0] == octet;
    FirstOctet(addresses[k], k == |addresses| - 1);
    assert data[7 * k] == octet;
  }

  /** Of more than ten addresses ten are read. */
  lemma {:induction false} ReadTen(addresses: seq<Address>, data: seq<byte>, texts: seq<string>, k: nat)
    requires k <= 10 < |addresses| && ValidAddresses(addresses) && texts == AddressTexts(addresses)
    requires EncodeAddresses(addresses) <= data
    ensures ReadAddresses(data, 7 * k, texts[..k]) == (texts[..10], 70)
    decreases 10 - k
  {
    if k < 10 {
      HoldsInWhole(addresses, data, k);
      ReadNext(addresses, data, texts, k);
      ReadTen(addresses, data, texts, k + 1);
    }
  }

  lemma ReadTenFromStart(addresses: seq<Address>, data: seq<byte>)
    requires 10 < |addresses| && ValidAddresses(addresses) && EncodeAddresses(addresses) <= data
    ensures ReadAddresses(data, 0, []) == (AddressTexts(addresses)[..10], 70)
  {
    ReadTen(addresses, data, AddressTexts(addresses), 0);
    assert AddressTexts(addresses)[..0] == [];
  }

  /** A frame that names more than ten stations is refused, whatever its control
      field, PID and payload. */
  lemma TooManyStationsRefused(
    command: seq<byte>, addresses: seq<Address>, control: byte, pid: byte, info: seq<byte>,
    decode: seq<byte> -> string)
    requires command in {[], [0x00], [0x10], [0x20], [0x30]}
    requires 10 < |addresses| && ValidAddresses(addresses)
    ensures Convert(command + EncodeFrame(addresses, control, pid, info), decode) == None
  {
    var rest := [control, pid] + info;
    assert EncodeFrame(addresses, control, pid, info) == EncodeAddresses(addresses) + rest;
    CommandByteFound(command, addresses, rest);
    TenRefused(command, addresses, EncodeAddresses(addresses) + rest, decode);
  }

  lemma TenRefused(command: seq<byte>, addresses: seq<Address>, body: seq<byte>, decode: seq<byte> -> string)
    requires 10 < |addresses| && ValidAddresses(addresses) && EncodeAddresses(addresses) <= body
    requires |command + body| >= 2 && (command + body)[CommandLength(command + body)..] == body
    ensures Convert(command + body, decode) == None
  {
    ReadTenFromStart(addresses, body);
    AddressIsNoControl(addresses, body, 10);
    ConvertVia(command + body, body, AddressTexts(addresses)[..10], 70, decode);
  }

  /** Of a cut address field the whole addresses are read. */
  lemma {:induction false} ReadCut(addresses: seq<Address>, data: seq<byte>, texts: seq<string>, k: nat)
    requires |addresses| <= 10 && ValidAddresses(addresses) && addresses != [] && texts == AddressTexts(addresses)
    requires data <= EncodeAddresses(addresses) && 7 * k <= |data| < 7 * |addresses|
    ensures ReadAddresses(data, 7 * k, texts[..k]) == (texts[..|data| / 7], 7 * (|data| / 7))
    decreases |addresses| - k
  {
    if 7 * k + 7 <= |data| {
      HoldsInPart(addresses, data, k);
      ReadNext(addresses, data, texts, k);
      ReadCut(addresses, data, texts, k + 1);
    } else {
      assert |data| / 7 == k;
    }
  }

  lemma CutRefused(addresses: seq<Address>, data: seq<byte>, decode: seq<byte> -> string)
    requires 2 <= |addresses| <= 10 && ValidAddresses(addresses)
    requires data <= EncodeAddresses(addresses) && 16 <= |data| < 7 * |addresses|
    ensures var read := ReadAddresses(data, 0, []); ConvertBody(read.0, data, read.1, decode) == None
  {
    var texts, k := AddressTexts(addresses), |data| / 7;
    ReadCut(addresses, data, texts, 0);
    assert texts[..0] == [];
    if 7 * k < |data| {
      AddressIsNoControl(addresses, data, k);
    }
  }

  lemma HeadRefused(addresses: seq<Address>, data: seq<byte>, decode: seq<byte> -> string)
    requires 2 <= |addresses| <= 10 && ValidAddresses(addresses)
    requires EncodeAddresses(addresses) <= data && |data| < 7 * |addresses| + 2
    ensures var read := ReadAddresses(data, 0, []); ConvertBody(read.0, data, read.1, decode) == None
  {
    ReadFrom(addresses, data, AddressTexts(addresses), 0);
    assert AddressTexts(addresses)[..0] == [];
  }

  /** A frame cut off anywhere before its payload is refused. */
  lemma TruncatedRefused(
    command: seq<byte>, addresses: seq<Address>, control: byte, pid: byte, info: seq<byte>, n: nat,
    decode: seq<byte> -> string)
    requires command in {[], [0x00], [0x10], [0x20], [0x30]}
    requires 2 <= |addresses| <= 10 && ValidAddresses(addresses) && n < 7 * |addresses| + 2
    ensures Convert(command + EncodeFrame(addresses, control, pid, info)[..n], decode) == None
  {
    var field, frame := EncodeAddresses(addresses), EncodeFrame(addresses, control, pid, info);
    var data := frame[..n];
    assert field <= frame;
    if n >= 16 {
      EncodeUnfold(addresses);
      FirstOctet(addresses[0], false);
      assert data[0] == field[0] == EncodeAddress(addresses[0], false)[0];
      CommandLengthOf(command, data);
      if n < 7 * |addresses| {
        assert data <= field;
        CutRefused(addresses, data, decode);
      } else {
        assert field <= data;
        HeadRefused(addresses, data, decode);
      }
      var read := ReadAddresses(data, 0, []);
      ConvertVia(command + data, data, read.0, read.1, decode);
    } else {
      ShortRefused(command, data, addresses, decode);
    }
  }

  lemma ShortRefused(command: seq<byte>, data: seq<byte>, addresses: seq<Address>, decode: seq<byte> -> string)
    requires command in {[], [0x00], [0x10], [0x20], [0x30]} && |data| < 16
    requires addresses != [] && ValidAddresses(addresses)
    requires data != [] ==> data[0] == EncodeAddress(addresses[0], |addresses| == 1)[0]
    ensures Convert(command + data, decode) == None
  {
    FirstOctet(addresses[0], |addresses| == 1);
    if data != [] {
      assert command != [] ==> (command + data)[1] == data[0];
    }
  }

  // ----- The text determines the stations and the payload -----

  /** Everything behind the destination: the path, then the payload. */
  function Tail(path: seq<string>, payload: string): string {
    if path == [] then ":" + payload else "," + path[0] + Tail(path[1..], payload)
  }

  lemma {:induction false} JoinIsTail(path: seq<string>, payload: string)
    requires path != [] && forall i :: 0 <= i < |path| ==> path[i] != ""
    ensures Join(path) != "" && "," + Join(path) + ":" + payload == Tail(path, payload)
    decreases path
  {
    if |path| == 1 {
      assert Tail(path[1..], payload) == ":" + payload;
    } else {
      JoinIsTail(path[1..], payload);
    }
    calc {
      "," + Join(path) + ":" + payload;
      "," + path[0] + Tail(path[1..], payload);
    }
  }

  lemma CutNotEarlier(a1: string, b1: string, a2: string, b2: string, separators: set<char>)
    requires a1 + b1 == a2 + b2
    requires forall i :: 0 <= i < |a2| ==> a2[i] !in separators
    requires b1 != [] ==> b1[0] in separators
    ensures |a1| >= |a2|
  {
    var whole := a1 + b1;
    assert forall i :: 0 <= i < |a2| ==> whole[i] == a2[i];
    assert b1 != [] ==> whole[|a1|] == b1[0];
  }

  /** No separator inside a, and a separator right behind it: the cut is forced. */
  lemma CutUnique(a1: string, b1: string, a2: string, b2: string, separators: set<char>)
    requires a1 + b1 == a2 + b2
    requires forall i :: 0 <= i < |a1| ==> a1[i] !in separators
    requires forall i :: 0 <= i < |a2| ==> a2[i] !in separators
    requires b1 != [] ==> b1[0] in separators
    requires b2 != [] ==> b2[0] in separators
    ensures a1 == a2 && b1 == b2
  {
    var whole := a1 + b1;
    CutNotEarlier(a1, b1, a2, b2, separators);
    CutNotEarlier(a2, b2, a1, b1, separators);
    assert a1 == whole[..|a1|] && a2 == whole[..|a2|];
    assert b1 == whole[|a1|..] && b2 == whole[|a2|..];
  }

  const PUNCTUATION := {'>', ',', ':'}

  lemma AddressTextPlain(a: Address)
    requires ValidAddress(a)
    ensures forall i :: 0 <= i < |AddressText(a)| ==> AddressText(a)[i] !in PUNCTUATION
  {
    var digits := Decimals.Print(a.ssid);
    forall i | 0 <= i < |AddressText(a)| ensures AddressText(a)[i] !in PUNCTUATION {
      if i < |a.call| {
        assert CallChar(a.call[i]);
      } else if i > |a.call| {
        assert AddressText(a)[i] == digits[i - |a.call| - 1];
        assert Decimals.IsDigit(digits[i - |a.call| - 1]);
      }
    }
  }

  lemma AddressTextInjective(a: Address, b: Address)
    requires ValidAddress(a) && ValidAddress(b) && AddressText(a) == AddressText(b)
    ensures a.call == b.call && a.ssid == b.ssid
  {
    var ta := if a.ssid != 0 then "-" + Decimals.Print(a.ssid) else "";
    var tb := if b.ssid != 0 then "-" + Decimals.Print(b.ssid) else "";
    assert a.call + ta == AddressText(a) && b.call + tb == AddressText(b);
    CutUnique(a.call, ta, b.call, tb, {'-'});
    if a.ssid != 0 && b.ssid != 0 {
      assert Decimals.Print(a.ssid) == ta[1..] && Decimals.Print(b.ssid) == tb[1..];
      Decimals.PrintInjective(a.ssid, b.ssid);
    }
  }

  ghost predicate SameStations(a: seq<Address>, b: seq<Address>) {
    |a| == |b| && forall i :: 0 <= i < |a| ==> a[i].call == b[i].call && a[i].ssid == b[i].ssid
  }

  lemma {:induction false} TailDetermines(a: seq<Address>, p: string, b: seq<Address>, q: string)
    requires ValidAddresses(a) && ValidAddresses(b)
    requires Tail(AddressTexts(a), p) == Tail(AddressTexts(b), q)
    ensures SameStations(a, b) && p == q
    decreases a
  {
    TailUnfold(a, p);
    TailUnfold(b, q);
    if a != [] {
      var ra, rb := Tail(AddressTexts(a[1..]), p), Tail(AddressTexts(b[1..]), q);
      TailUnfold(a[1..], p);
      TailUnfold(b[1..], q);
      AddressTextPlain(a[0]);
      AddressTextPlain(b[0]);
      CutUnique(AddressText(a[0]), ra, AddressText(b[0]), rb, PUNCTUATION);
      AddressTextInjective(a[0], b[0]);
      TailDetermines(a[1..], p, b[1..], q);
    }
  }

  lemma TailUnfold(a: seq<Address>, p: string)
    ensures var tail := Tail(AddressTexts(a), p);
            tail != [] && tail[0] in PUNCTUATION && (tail[0] == ':' <==> a == []) &&
            tail[1..] == if a == [] then p else AddressText(a[0]) + Tail(AddressTexts(a[1..]), p)
  {
    if a != [] {
      assert AddressTexts(a)[1..] == AddressTexts(a[1..]);
    }
  }

  lemma Regroup(a: string, b: string, c: string)
    ensures a + ">" + b + c == a + (">" + (b + c))
  {
  }

  lemma RenderIsTail(addresses: seq<Address>, payload: string)
    requires |addresses| >= 2 && ValidAddresses(addresses)
    ensures var t := AddressTexts(addresses);
            Render(t, payload) == t[1] + (">" + (t[0] + Tail(t[2..], payload)))
  {
    var t := AddressTexts(addresses);
    var path := t[2..];
    forall i | 0 <= i < |path| ensures path[i] != "" {
      AddressTextNonempty(addresses[i + 2]);
    }
    Regroup(t[1], t[0], Tail(path, payload));
    if path != [] {
      JoinIsTail(path, payload);
      RegroupPath(t[1] + ">" + t[0], Join(path), payload);
    } else {
      assert Render(t, payload) == t[1] + ">" + t[0] + (":" + payload);
    }
  }

  lemma RegroupPath(head: string, path: string, payload: string)
    ensures head + "," + path + ":" + payload == head + ("," + path + ":" + payload)
  {
  }

  /** Two frames with the same text name the same stations in the same roles and
      carry the same decoded payload. */
  lemma TextDeterminesParts(a: seq<Address>, p: string, b: seq<Address>, q: string)
    requires |a| >= 2 && |b| >= 2 && ValidAddresses(a) && ValidAddresses(b)
    requires Render(AddressTexts(a), p) == Render(AddressTexts(b), q)
    ensures SameStations(a, b) && p == q
  {
    var ta, tb := AddressTexts(a), AddressTexts(b);
    RenderIsTail(a, p);
    RenderIsTail(b, q);
    HeadsDetermine(a[0], a[1], Tail(ta[2..], p), b[0], b[1], Tail(tb[2..], q));
    assert ta[2..] == AddressTexts(a[2..]) && tb[2..] == AddressTexts(b[2..]);
    TailDetermines(a[2..], p, b[2..], q);
    SameFrom(a, b);
  }

  /** Source and destination, cut off at their separators. */
  lemma HeadsDetermine(to1: Address, from1: Address, rest1: string, to2: Address, from2: Address, rest2: string)
    requires ValidAddress(to1) && ValidAddress(from1) && ValidAddress(to2) && ValidAddress(from2)
    requires rest1 != [] && rest1[0] in PUNCTUATION && rest2 != [] && rest2[0] in PUNCTUATION
    requires AddressText(from1) + (">" + (AddressText(to1) + rest1))
          == AddressText(from2) + (">" + (AddressText(to2) + rest2))
    ensures from1.call == from2.call && from1.ssid == from2.ssid && to1.call == to2.call && to1.ssid == to2.ssid
    ensures rest1 == rest2
  {
    var r1, r2 := AddressText(to1) + rest1, AddressText(to2) + rest2;
    AddressTextPlain(from1);
    AddressTextPlain(from2);
    CutUnique(AddressText(from1), ">" + r1, AddressText(from2), ">" + r2, PUNCTUATION);
    assert r1 == (">" + r1)[1..] && r2 == (">" + r2)[1..];
    AddressTextPlain(to1);
    AddressTextPlain(to2);
    CutUnique(AddressText(to1), rest1, AddressText(to2), rest2, PUNCTUATION);
    AddressTextInjective(from1, from2);
    AddressTextInjective(to1, to2);
  }

  lemma SameFrom(a: seq<Address>, b: seq<Address>)
    requires |a| >= 2 && |b| >= 2 && SameStations(a[2..], b[2..])
    requires forall i :: 0 <= i < 2 ==> a[i].call == b[i].call && a[i].ssid == b[i].ssid
    ensures SameStations(a, b)
  {
    forall i | 0 <= i < |a| ensures a[i].call == b[i].call && a[i].ssid == b[i].ssid {
      if i >= 2 {
        assert a[i] == a[2..][i - 2] && b[i] == b[2..][i - 2];
      }
    }
  }

  // ----- Down to the payload bytes -----

  predicate AllAscii(info: seq<byte>) { forall i :: 0 <= i < |info| ==> info[i] < 128 }

  function Ascii(info: seq<byte>): string
    requires AllAscii(info)
  {
    seq(|info|, i requires 0 <= i < |info| => info[i] as char)
  }

  /** The payload decoder reads 7-bit characters as themselves, as UTF-8 does. */
  ghost predicate ReadsAscii(decode: seq<byte> -> string) {
    forall info: seq<byte> :: AllAscii(info) ==> decode(info) == Ascii(info)
  }

  lemma AsciiInjective(p: seq<byte>, q: seq<byte>)
    requires AllAscii(p) && AllAscii(q) && Ascii(p) == Ascii(q)
    ensures p == q
  {
    forall i | 0 <= i < |p| ensures p[i] == q[i] {
      assert Ascii(p)[i] == p[i] as char && Ascii(q)[i] == q[i] as char;
    }
  }

  /** Two UI frames with 7-bit payloads, with any command bytes: they give the same
      text exactly when they name the same stations in the same roles and carry the
      same payload bytes. The C, H, reserved and poll bits do not matter. */
  lemma TextDeterminesFrame(
    command1: seq<byte>, a: seq<Address>, control1: byte, p: seq<byte>,
    command2: seq<byte>, b: seq<Address>, control2: byte, q: seq<byte>, decode: seq<byte> -> string)
    requires command1 in {[], [0x00], [0x10], [0x20], [0x30]} && command2 in {[], [0x00], [0x10], [0x20], [0x30]}
    requires 2 <= |a| <= 10 && ValidAddresses(a) && 2 <= |b| <= 10 && ValidAddresses(b)
    requires control1 in {0x03, 0x13} && control2 in {0x03, 0x13}
    requires AllAscii(p) && AllAscii(q) && ReadsAscii(decode)
    ensures Convert(command1 + EncodeFrame(a, control1, 0xF0, p), decode) ==
            Convert(command2 + EncodeFrame(b, control2, 0xF0, q), decode)
       <==> SameStations(a, b) && p == q
  {
    ConvertUndoesEncode(command1, a, control1, 0xF0, p, decode);
    ConvertUndoesEncode(command2, b, control2, 0xF0, q, decode);
    RenderedEqualIff(a, p, b, q);
  }

  lemma RenderedEqualIff(a: seq<Address>, p: seq<byte>, b: seq<Address>, q: seq<byte>)
    requires |a| >= 2 && |b| >= 2 && ValidAddresses(a) && ValidAddresses(b) && AllAscii(p) && AllAscii(q)
    ensures Render(AddressTexts(a), Ascii(p)) == Render(AddressTexts(b), Ascii(q)) <==> SameStations(a, b) && p == q
  {
    if Render(AddressTexts(a), Ascii(p)) == Render(AddressTexts(b), Ascii(q)) {
      TextDeterminesParts(a, Ascii(p), b, Ascii(q));
      AsciiInjective(p, q);
    }
    if SameStations(a, b) {
      assert AddressTexts(a) == AddressTexts(b);
    }
  }
}
