/** The scanner of the opening HTTP request, and the printed form it inverts. */
module Http {
  import opened Bytes
  import ByteNums

  const SP: byte := 0x20
  const CR: byte := 0x0D
  const LF: byte := 0x0A
  const COLON: byte := 0x3A

  type Headers = map<seq<byte>, seq<byte>>

  function Ascii(s: string): (r: seq<byte>)
    ensures |r| == |s|
  {
    seq(|s|, i requires 0 <= i < |s| => ByteNums.ToByte(s[i] as int % 256))
  }

  const METHOD: seq<byte> := Ascii("method")
  const PATH: seq<byte> := Ascii("path")

  // ---- Requests and their printed form ----

  datatype Request = Request(verb: seq<byte>, path: seq<byte>, version: seq<byte>, headers: seq<(seq<byte>, seq<byte>)>)

  predicate Free(s: seq<byte>, c: byte) {
    forall i :: 0 <= i < |s| ==> s[i] != c
  }

  predicate OnOneLine(s: seq<byte>) {
    Free(s, CR) && Free(s, LF)
  }

  /** Keys and values may be empty. */
  predicate Printable(hs: seq<(seq<byte>, seq<byte>)>) {
    forall i :: 0 <= i < |hs| ==> OnOneLine(hs[i].0) && Free(hs[i].0, COLON) && OnOneLine(hs[i].1)
  }

  predicate WellFormed(r: Request) {
    && OnOneLine(r.verb) && Free(r.verb, SP)
    && OnOneLine(r.path) && Free(r.path, SP)
    && OnOneLine(r.version)
    && |r.headers| >= 1 && Printable(r.headers)
  }

  function PrintLine(r: Request): seq<byte> {
    r.verb + [SP] + r.path + [SP] + r.version
  }

  function PrintHeaders(hs: seq<(seq<byte>, seq<byte>)>): seq<byte> {
    if hs == [] then [] else hs[0].0 + [COLON, SP] + hs[0].1 + [CR, LF] + PrintHeaders(hs[1..])
  }

  function Print(r: Request): seq<byte> {
    PrintLine(r) + [CR, LF] + PrintHeaders(r.headers) + [CR, LF]
  }

  // ---- What the scanner makes of a request ----

  /** An entry that is already there stays. */
  function Emplace(m: Headers, k: seq<byte>, v: seq<byte>): Headers {
    if k in m then m else m[k := v]
  }

  predicate Complete(hs: seq<(seq<byte>, seq<byte>)>) {
    forall i :: 0 <= i < |hs| ==> hs[i].0 != [] && hs[i].1 != []
  }

  /** The headers before the first one with an empty key or value. */
  function Usable(hs: seq<(seq<byte>, seq<byte>)>): seq<(seq<byte>, seq<byte>)> {
    if hs == [] || hs[0].0 == [] || hs[0].1 == [] then [] else [hs[0]] + Usable(hs[1..])
  }

  function EmplaceAll(m: Headers, hs: seq<(seq<byte>, seq<byte>)>): Headers
    decreases |hs|
  {
    if hs == [] then m else EmplaceAll(Emplace(m, hs[0].0, hs[0].1), hs[1..])
  }

  /** The entries that a request adds to `m`: method and path count as its first two. */
  function Entries(r: Request): seq<(seq<byte>, seq<byte>)> {
    [(METHOD, r.verb), (PATH, r.path)] + Usable(r.headers)
  }

  predicate IsFirst(hs: seq<(seq<byte>, seq<byte>)>, i: nat, k: seq<byte>)
    requires i < |hs|
  {
    hs[i].0 == k && forall j :: 0 <= j < i ==> hs[j].0 != k
  }

  /** A key's value is the one that was there before, or else that of its first entry. */
  lemma {:induction false} FirstEntryWins(m: Headers, hs: seq<(seq<byte>, seq<byte>)>, k: seq<byte>)
    ensures k in EmplaceAll(m, hs) <==> k in m || exists i :: 0 <= i < |hs| && hs[i].0 == k
    ensures k in m ==> EmplaceAll(m, hs)[k] == m[k]
    ensures forall i :: k !in m && 0 <= i < |hs| && IsFirst(hs, i, k) ==> EmplaceAll(m, hs)[k] == hs[i].1
    decreases |hs|
  {
    if hs != [] {
      var rest := hs[1..];
      FirstEntryWins(Emplace(m, hs[0].0, hs[0].1), rest, k);
      assert forall i :: 0 <= i < |rest| ==> rest[i] == hs[i + 1];
      assert hs[0].0 == k || forall i :: 0 <= i < |hs| && hs[i].0 == k ==> i >= 1 && rest[i - 1].0 == k;
    }
  }

  lemma EntryNames()
    ensures METHOD != PATH
  {
    assert |METHOD| == 6 && |PATH| == 4;
  }

  lemma EntryOf(r: Request)
    requires Complete(r.headers)
    ensures |Entries(r)| == |r.headers| + 2
    ensures Entries(r)[0] == (METHOD, r.verb) && Entries(r)[1] == (PATH, r.path)
    ensures forall i :: 0 <= i < |r.headers| ==> Entries(r)[i + 2] == r.headers[i]
  {
    UsableIsPrefix(r.headers);
  }

  lemma LineRecovered(r: Request)
    requires Complete(r.headers)
    ensures var m := EmplaceAll(map[], Entries(r));
      METHOD in m && m[METHOD] == r.verb && PATH in m && m[PATH] == r.path
  {
    EntryOf(r);
    EntryNames();
    hide Entries, EmplaceAll;
    var es := Entries(r);
    assert IsFirst(es, 0, METHOD) && IsFirst(es, 1, PATH);
    FirstEntryWins(map[], es, METHOD);
    FirstEntryWins(map[], es, PATH);
  }

  lemma NameRecovered(r: Request, k: seq<byte>)
    requires Complete(r.headers)
    ensures k != METHOD && k != PATH ==>
      var m := EmplaceAll(map[], Entries(r));
      && (k in m <==> exists i :: 0 <= i < |r.headers| && r.headers[i].0 == k)
      && forall i :: 0 <= i < |r.headers| && IsFirst(r.headers, i, k) ==> m[k] == r.headers[i].1
  {
    if k == METHOD || k == PATH {
      return;
    }
    EntryOf(r);
    hide Entries, EmplaceAll;
    var es := Entries(r);
    FirstEntryWins(map[], es, k);
    forall i | 0 <= i < |r.headers| && IsFirst(r.headers, i, k)
      ensures IsFirst(es, i + 2, k)
    {
      assert forall j :: 2 <= j < i + 2 ==> es[j] == r.headers[j - 2];
    }
    assert forall i :: 2 <= i < |es| ==> es[i] == r.headers[i - 2];
  }

  /** Scanning inverts printing: from an empty map, a complete request gives back exactly its method, its path and its
      headers, the first of every name. A header named like one of those two does not show. */
  lemma HeadersRecovered(r: Request, k: seq<byte>)
    requires Complete(r.headers)
    ensures var m := EmplaceAll(map[], Entries(r));
      && METHOD in m && m[METHOD] == r.verb && PATH in m && m[PATH] == r.path
      && (k != METHOD && k != PATH ==>
            && (k in m <==> exists i :: 0 <= i < |r.headers| && r.headers[i].0 == k)
            && forall i :: 0 <= i < |r.headers| && IsFirst(r.headers, i, k) ==> m[k] == r.headers[i].1)
  {
    hide Entries, EmplaceAll, IsFirst;
    LineRecovered(r);
    if k != METHOD && k != PATH {
      NameRecovered(r, k);
    }
  }

  lemma {:induction false} UsableIsPrefix(hs: seq<(seq<byte>, seq<byte>)>)
    ensures Usable(hs) <= hs && Complete(Usable(hs))
    ensures Complete(hs) <==> Usable(hs) == hs
    ensures Usable(hs) != hs ==> var x := hs[|Usable(hs)|]; x.0 == [] || x.1 == []
  {
    if hs != [] {
      UsableIsPrefix(hs[1..]);
      if hs[0].0 != [] && hs[0].1 != [] {
        assert forall i :: 1 <= i < |hs| ==> hs[i] == hs[1..][i - 1];
        assert Usable(hs) == [hs[0]] + Usable(hs[1..]);
        assert hs == [hs[0]] + hs[1..];
      }
    }
  }

  // ---- The opening handshake ----

  predicate Holds(m: Headers, k: string, v: string) {
    Ascii(k) in m && m[Ascii(k)] == Ascii(v)
  }

  /** The headers ask for a WebSocket and bring a key. */
  predicate Upgrades(m: Headers) {
    Holds(m, "Upgrade", "websocket") && Holds(m, "Connection", "Upgrade") && Ascii("Sec-WebSocket-Key") in m
  }

  predicate FirstIs(hs: seq<(seq<byte>, seq<byte>)>, k: seq<byte>, v: seq<byte>) {
    exists i :: 0 <= i < |hs| && IsFirst(hs, i, k) && hs[i].1 == v
  }

  lemma {:induction false} FirstExists(hs: seq<(seq<byte>, seq<byte>)>, k: seq<byte>, i: nat) returns (j: nat)
    requires i < |hs| && hs[i].0 == k
    ensures j <= i && IsFirst(hs, j, k)
    decreases i
  {
    if exists h :: 0 <= h < i && hs[h].0 == k {
      var h :| 0 <= h < i && hs[h].0 == k;
      j := FirstExists(hs, k, h);
    } else {
      j := i;
    }
  }

  /** For a name longer than those of the two entries from the request line. */
  lemma HeaderHolds(r: Request, k: seq<byte>, v: seq<byte>)
    requires Complete(r.headers) && |k| > 6
    ensures var m := EmplaceAll(map[], Entries(r));
      k in m && m[k] == v <==> FirstIs(r.headers, k, v)
  {
    assert |METHOD| == 6 && |PATH| == 4;
    HeadersRecovered(r, k);
    var m := EmplaceAll(map[], Entries(r));
    if k in m {
      var i :| 0 <= i < |r.headers| && r.headers[i].0 == k;
      var j := FirstExists(r.headers, k, i);
    }
  }

  /** The handshake of a new client is accepted exactly when the first headers of the two names ask for a WebSocket and
      there is a key. */
  lemma HandshakeDecision(r: Request)
    requires Complete(r.headers)
    ensures Upgrades(EmplaceAll(map[], Entries(r))) <==>
      && FirstIs(r.headers, Ascii("Upgrade"), Ascii("websocket"))
      && FirstIs(r.headers, Ascii("Connection"), Ascii("Upgrade"))
      && exists i :: 0 <= i < |r.headers| && r.headers[i].0 == Ascii("Sec-WebSocket-Key")
  {
    hide Entries, EmplaceAll, Complete, FirstIs;
    assert |METHOD| == 6 && |PATH| == 4 && |Ascii("Upgrade")| == 7;
    assert |Ascii("Connection")| == 10 && |Ascii("Sec-WebSocket-Key")| == 17;
    HeaderHolds(r, Ascii("Upgrade"), Ascii("websocket"));
    HeaderHolds(r, Ascii("Connection"), Ascii("Upgrade"));
    HeadersRecovered(r, Ascii("Sec-WebSocket-Key"));
  }

  function SwitchingProtocols(acceptKey: seq<byte>): (r: seq<byte>)
    ensures r != []
  {
    Ascii("HTTP/1.1 101 Switching Protocols") + [CR, LF] + Ascii("Upgrade: websocket") + [CR, LF]
    + Ascii("Connection: Upgrade") + [CR, LF] + Ascii("Sec-WebSocket-Accept: ") + acceptKey + [CR, LF] + [CR, LF]
  }

  lemma AsciiConcat(a: string, b: string)
    ensures Ascii(a + b) == Ascii(a) + Ascii(b)
  {
    hide ByteNums.ToByte;
  }

  /** Each byte has the number of its character. */
  lemma AsciiBytes(s: string, i: nat)
    requires i < |s| && s[i] as int < 256
    ensures ByteNums.Num(Ascii(s)[i]) == s[i] as int
  {
    hide ByteNums.ToByte, ByteNums.Num;
    assert s[i] as int % 256 == s[i] as int;
    ByteNums.NumToByte(s[i] as int);
  }

  /** A request, byte by byte; the strings of a response's first line take the places of a request's. */
  lemma PrintedBytes(r: Request)
    ensures Print(r)
         == r.verb + [0x20] + r.path + [0x20] + r.version + [0x0D, 0x0A] + PrintHeaders(r.headers) + [0x0D, 0x0A]
    ensures PrintHeaders([]) == []
    ensures forall hs, k, v :: PrintHeaders([(k, v)] + hs) == k + [0x3A, 0x20] + v + [0x0D, 0x0A] + PrintHeaders(hs)
  {
    forall hs: seq<(seq<byte>, seq<byte>)>, k, v
      ensures PrintHeaders([(k, v)] + hs) == k + [0x3A, 0x20] + v + [0x0D, 0x0A] + PrintHeaders(hs)
    {
      assert ([(k, v)] + hs)[1..] == hs;
    }
  }

  /** The 101 response as what a request is printed from: its version, status and reason are the three strings of the
      first line. */
  function Response(acceptKey: seq<byte>): Request {
    Request(
      Ascii("HTTP/1.1"), Ascii("101"), Ascii("Switching Protocols"),
      [(Ascii("Upgrade"), Ascii("websocket")), (Ascii("Connection"), Ascii("Upgrade")),
       (Ascii("Sec-WebSocket-Accept"), acceptKey)])
  }

  lemma ResponsePrinted(acceptKey: seq<byte>)
    ensures SwitchingProtocols(acceptKey) == Print(Response(acceptKey))
  {
    hide Ascii;
    FirstLine();
    HeaderLine("Upgrade", "websocket");
    HeaderLine("Connection", "Upgrade");
    AsciiConcat("Sec-WebSocket-Accept", ": ");
    Separators();
    assert "Upgrade: websocket" == "Upgrade" + ": " + "websocket";
    assert "Connection: Upgrade" == "Connection" + ": " + "Upgrade";
    assert "Sec-WebSocket-Accept: " == "Sec-WebSocket-Accept" + ": ";
    var hs := Response(acceptKey).headers;
    assert hs[1..][1..] == [hs[2]] && hs[1..][1..][1..] == [] && PrintHeaders([]) == [];
    assert PrintHeaders(hs[1..][1..]) == Ascii("Sec-WebSocket-Accept: ") + acceptKey + [CR, LF] + [];
    assert PrintHeaders(hs[1..]) == Ascii("Connection: Upgrade") + [CR, LF] + PrintHeaders(hs[1..][1..]);
    assert PrintHeaders(hs) == Ascii("Upgrade: websocket") + [CR, LF] + PrintHeaders(hs[1..]);
    assert PrintHeaders(hs)
        == Ascii("Upgrade: websocket") + [CR, LF] + (Ascii("Connection: Upgrade") + [CR, LF]
           + (Ascii("Sec-WebSocket-Accept: ") + acceptKey + [CR, LF] + []));
    Lines(Ascii("HTTP/1.1 101 Switching Protocols"), Ascii("Upgrade: websocket"), Ascii("Connection: Upgrade"),
          Ascii("Sec-WebSocket-Accept: "), acceptKey, [CR, LF]);
  }

  lemma Lines(a: seq<byte>, b: seq<byte>, c: seq<byte>, d: seq<byte>, k: seq<byte>, e: seq<byte>)
    ensures a + e + b + e + c + e + d + k + e + e == a + e + (b + e + (c + e + (d + k + e + []))) + e
  {
  }

  lemma Separators()
    ensures Ascii(" ") == [SP] && Ascii(": ") == [COLON, SP]
  {
    hide Ascii;
    AsciiBytes(" ", 0);
    AsciiBytes(":", 0);
    SeparatorNumbers();
    hide ByteNums.Num;
    ByteNums.NumInjective(Ascii(" ")[0], SP);
    ByteNums.NumInjective(Ascii(":")[0], COLON);
    assert ": " == ":" + " ";
    AsciiConcat(":", " ");
  }

  lemma SeparatorNumbers()
    ensures ByteNums.Num(CR) == 13 && ByteNums.Num(LF) == 10 && ByteNums.Num(SP) == 32 && ByteNums.Num(COLON) == 58
  {
  }

  lemma FirstLine()
    ensures Ascii("HTTP/1.1 101 Switching Protocols")
         == Ascii("HTTP/1.1") + [SP] + Ascii("101") + [SP] + Ascii("Switching Protocols")
  {
    hide Ascii;
    Separators();
    assert "HTTP/1.1 101 Switching Protocols" == "HTTP/1.1" + " " + "101" + " " + "Switching Protocols";
    AsciiConcat("HTTP/1.1", " ");
    AsciiConcat("HTTP/1.1" + " ", "101");
    AsciiConcat("HTTP/1.1" + " " + "101", " ");
    AsciiConcat("HTTP/1.1" + " " + "101" + " ", "Switching Protocols");
  }

  lemma HeaderLine(k: string, v: string)
    ensures Ascii(k + ": " + v) == Ascii(k) + [COLON, SP] + Ascii(v)
  {
    hide Ascii;
    Separators();
    AsciiConcat(k, ": ");
    AsciiConcat(k + ": ", v);
  }

  lemma AsciiFree(s: string, c: byte)
    requires forall i :: 0 <= i < |s| ==> s[i] as int < 256 && s[i] as int != ByteNums.Num(c)
    ensures Free(Ascii(s), c)
  {
    hide ByteNums.Num, Ascii;
    forall i | 0 <= i < |s| ensures Ascii(s)[i] != c {
      AsciiBytes(s, i);
    }
  }

  predicate Printing(s: string) {
    forall i :: 0 <= i < |s| ==> 32 <= s[i] as int < 127
  }

  lemma AsciiOnOneLine(s: string)
    requires Printing(s)
    ensures OnOneLine(Ascii(s))
    ensures (forall i :: 0 <= i < |s| ==> s[i] != ' ') ==> Free(Ascii(s), SP)
    ensures (forall i :: 0 <= i < |s| ==> s[i] != ':') ==> Free(Ascii(s), COLON)
  {
    hide Ascii, Free;
    SeparatorNumbers();
    AsciiFree(s, CR);
    AsciiFree(s, LF);
    if forall i :: 0 <= i < |s| ==> s[i] != ' ' {
      AsciiFree(s, SP);
    }
    if forall i :: 0 <= i < |s| ==> s[i] != ':' {
      AsciiFree(s, COLON);
    }
  }

  lemma ResponseLine()
    ensures OnOneLine(Ascii("HTTP/1.1")) && Free(Ascii("HTTP/1.1"), SP)
    ensures OnOneLine(Ascii("101")) && Free(Ascii("101"), SP) && OnOneLine(Ascii("Switching Protocols"))
  {
    hide Ascii, Free, OnOneLine;
    AsciiOnOneLine("HTTP/1.1");
    AsciiOnOneLine("101");
    AsciiOnOneLine("Switching Protocols");
  }

  lemma ResponseNames()
    ensures OnOneLine(Ascii("Upgrade")) && Free(Ascii("Upgrade"), COLON) && OnOneLine(Ascii("websocket"))
    ensures OnOneLine(Ascii("Connection")) && Free(Ascii("Connection"), COLON)
    ensures OnOneLine(Ascii("Sec-WebSocket-Accept")) && Free(Ascii("Sec-WebSocket-Accept"), COLON)
  {
    hide Ascii, Free, OnOneLine;
    AsciiOnOneLine("Upgrade");
    AsciiOnOneLine("websocket");
    AsciiOnOneLine("Connection");
    AsciiOnOneLine("Sec-WebSocket-Accept");
  }

  /** So the scanner takes it, whatever follows. */
  lemma ResponseWellFormed(acceptKey: seq<byte>)
    requires OnOneLine(acceptKey)
    ensures WellFormed(Response(acceptKey))
  {
    hide Ascii, Free, OnOneLine;
    ResponseLine();
    ResponseNames();
  }

  /** Scanning the 101 response gives back the status 101, both headers that confirm the upgrade, and exactly the accept
      key. */
  lemma ResponseRecovered(acceptKey: seq<byte>)
    requires acceptKey != []
    ensures Complete(Response(acceptKey).headers)
    ensures var m := EmplaceAll(map[], Entries(Response(acceptKey)));
      && Holds(m, "method", "HTTP/1.1") && Holds(m, "path", "101")
      && Holds(m, "Upgrade", "websocket") && Holds(m, "Connection", "Upgrade")
      && Ascii("Sec-WebSocket-Accept") in m && m[Ascii("Sec-WebSocket-Accept")] == acceptKey
  {
    hide Ascii, Entries, EmplaceAll;
    var r := Response(acceptKey);
    assert |Ascii("Upgrade")| == 7 && |Ascii("Connection")| == 10 && |Ascii("Sec-WebSocket-Accept")| == 20;
    assert |Ascii("websocket")| == 9;
    assert Complete(r.headers);
    LineRecovered(r);
    assert IsFirst(r.headers, 0, Ascii("Upgrade")) && IsFirst(r.headers, 1, Ascii("Connection"));
    assert IsFirst(r.headers, 2, Ascii("Sec-WebSocket-Accept"));
    HeaderHolds(r, Ascii("Upgrade"), Ascii("websocket"));
    HeaderHolds(r, Ascii("Connection"), Ascii("Upgrade"));
    HeaderHolds(r, Ascii("Sec-WebSocket-Accept"), acceptKey);
  }

  // ---- The scanner ----

  /** Reads the request line, and ends behind its line break. */
  method ScanLine(data: seq<byte>, before: Headers, ghost r: Request, ghost tail: seq<byte>)
    returns (m: nat, headers: Headers)
    requires WellFormed(r) && data == PrintLine(r) + [CR, LF] + tail
    ensures m == |PrintLine(r)| + 2
    ensures headers == Emplace(Emplace(before, METHOD, r.verb), PATH, r.path)
  {
    headers := before;
    m := 0;
    var n, i := 0, 0;
    ghost var a, b, end := |r.verb|, |r.verb| + 1 + |r.path|, |PrintLine(r)|;
    LineLayout(data, r, tail);
    hide PrintLine, WellFormed, Emplace;
    while data[m] != CR && data[m + 1] != LF
      invariant 0 <= n <= m <= end
      invariant i == 0 ==> n == 0 && m <= a && headers == before
      invariant i == 1 ==> n == a + 1 && m <= b && headers == Emplace(before, METHOD, r.verb)
      invariant i >= 2 ==> b < m && headers == Emplace(Emplace(before, METHOD, r.verb), PATH, r.path)
      decreases end - m
    {
      if data[m] == SP {
        if i == 0 {
          headers := Emplace(headers, METHOD, data[n..m]);
        } else if i == 1 {
          headers := Emplace(headers, PATH, data[n..m]);
        }
        n := m + 1;
        i := i + 1;
      }
      m := m + 1;
    }
    m := m + 2;
  }

  lemma LineLayout(data: seq<byte>, r: Request, tail: seq<byte>)
    requires WellFormed(r) && data == PrintLine(r) + [CR, LF] + tail
    ensures var a, b, end := |r.verb|, |r.verb| + 1 + |r.path|, |PrintLine(r)|;
      && b < end + 1 && end + 2 <= |data| && data[0..a] == r.verb && data[a + 1..b] == r.path
      && data[a] == SP && data[b] == SP && data[end] == CR
      && (forall k :: 0 <= k < a ==> data[k] != SP)
      && (forall k :: a < k < b ==> data[k] != SP)
      && (forall k :: 0 <= k < end ==> data[k] != CR && data[k] != LF)
  {
    var a, b, line := |r.verb|, |r.verb| + 1 + |r.path|, PrintLine(r);
    LineHasNoBreak(r);
    assert forall k :: 0 <= k < |line| ==> data[k] == line[k];
    assert forall k :: 0 <= k < a ==> data[k] == r.verb[k];
    assert forall k :: a < k < b ==> data[k] == r.path[k - a - 1];
  }

  lemma LineHasNoBreak(r: Request)
    requires WellFormed(r)
    ensures OnOneLine(PrintLine(r))
  {
  }

  /** Reads one header from `n` on, and ends behind its line break, or gives up on an empty key or value. */
  method ScanHeader(data: seq<byte>, n: nat, ghost x: (seq<byte>, seq<byte>), ghost tail: seq<byte>)
    returns (m: nat, key: seq<byte>, value: seq<byte>, ok: bool)
    requires OnOneLine(x.0) && Free(x.0, COLON) && OnOneLine(x.1)
    requires n <= |data| && data[n..] == x.0 + [COLON, SP] + x.1 + [CR, LF] + tail
    ensures ok <==> x.0 != [] && x.1 != []
    ensures ok ==> key == x.0 && value == x.1 && m == n + |x.0| + |x.1| + 4
  {
    m, key, value := n, [], [];
    ghost var c, d := n + |x.0|, n + |x.0| + 2 + |x.1|;
    HeaderLayout(data, n, x, tail);
    while data[m] != COLON
      invariant n <= m <= c
      decreases c - m
    {
      m := m + 1;
    }
    key := data[n..m];
    if key == [] {
      return m, key, value, false;
    }
    m := m + 2;
    var start := m;
    while data[m] != CR && data[m + 1] != LF
      invariant start <= m <= d
      decreases d - m
    {
      m := m + 1;
    }
    value := data[start..m];
    if value == [] {
      return m, key, value, false;
    }
    m := m + 2;
    ok := true;
  }

  lemma HeaderLayout(data: seq<byte>, n: nat, x: (seq<byte>, seq<byte>), tail: seq<byte>)
    requires OnOneLine(x.0) && Free(x.0, COLON) && OnOneLine(x.1)
    requires n <= |data| && data[n..] == x.0 + [COLON, SP] + x.1 + [CR, LF] + tail
    ensures var c, d := n + |x.0|, n + |x.0| + 2 + |x.1|;
      && d + 2 <= |data| && data[n..c] == x.0 && data[c] == COLON && data[c + 2..d] == x.1 && data[d] == CR
      && (forall k :: n <= k < c ==> data[k] != COLON)
      && (forall k :: c + 2 <= k < d ==> data[k] != CR && data[k] != LF)
  {
    var text, c, d := data[n..], |x.0|, |x.0| + 2 + |x.1|;
    assert forall k :: n <= k < |data| ==> data[k] == text[k - n];
    assert forall k :: 0 <= k < c ==> text[k] == x.0[k];
    assert forall k :: c + 2 <= k < d ==> text[k] == x.1[k - c - 2];
  }

  /** Reads the header lines from `start` on, up to the blank line. */
  method ScanHeaders(
    data: seq<byte>, start: nat, before: Headers, ghost hs: seq<(seq<byte>, seq<byte>)>, ghost tail: seq<byte>)
    returns (ok: bool, headers: Headers)
    requires Printable(hs) && hs != [] && |tail| >= 2 && tail[..2] == [CR, LF]
    requires start <= |data| && data[start..] == PrintHeaders(hs) + tail
    ensures ok <==> Complete(hs)
    ensures headers == EmplaceAll(before, Usable(hs))
  {
    hide PrintHeaders, Emplace, OnOneLine, Free;
    var m: nat := start;
    headers := before;
    ghost var left := hs;
    while true
      invariant Printable(left) && left != []
      invariant m <= |data| && data[m..] == PrintHeaders(left) + tail
      invariant EmplaceAll(headers, Usable(left)) == EmplaceAll(before, Usable(hs))
      invariant Complete(left) <==> Complete(hs)
      decreases |left|
    {
      NextHeader(data, m, left, tail);
      CompleteStep(left);
      var key, value, good;
      m, key, value, good := ScanHeader(data, m, left[0], PrintHeaders(left[1..]) + tail);
      if !good {
        return false, headers;
      }
      headers := Emplace(headers, key, value);
      left := left[1..];
      BlankLineAtEnd(data, m, left, tail);
      if data[m] == CR && data[m + 1] == LF {
        return true, headers;
      }
    }
  }

  lemma CompleteStep(hs: seq<(seq<byte>, seq<byte>)>)
    requires hs != []
    ensures Complete(hs) <==> hs[0].0 != [] && hs[0].1 != [] && Complete(hs[1..])
    ensures Usable(hs) != [] ==> Usable(hs)[0] == hs[0] && Usable(hs)[1..] == Usable(hs[1..])
    ensures Usable(hs) == [] <==> hs[0].0 == [] || hs[0].1 == []
  {
    assert hs == [hs[0]] + hs[1..];
  }

  /** On every well-formed request with at least one header, whatever follows it, the scan stays inside the text and
      enters method, path and headers in order up to the first header with an empty key or value; it succeeds exactly
      when there is none. */
  method DecodeHttpHeader(data: seq<byte>, before: Headers, ghost r: Request, ghost rest: seq<byte>)
    returns (ok: bool, headers: Headers)
    requires WellFormed(r) && data == Print(r) + rest
    ensures ok <==> Complete(r.headers)
    ensures headers == EmplaceAll(before, Entries(r))
  {
    ghost var tail := [CR, LF] + rest;
    assert data == PrintLine(r) + [CR, LF] + (PrintHeaders(r.headers) + tail);
    var m;
    m, headers := ScanLine(data, before, r, PrintHeaders(r.headers) + tail);
    assert data[m..] == PrintHeaders(r.headers) + tail;
    EmplaceTwo(before, (METHOD, r.verb), (PATH, r.path), Usable(r.headers));
    ok, headers := ScanHeaders(data, m, headers, r.headers, tail);
  }

  lemma EmplaceTwo(m: Headers, x: (seq<byte>, seq<byte>), y: (seq<byte>, seq<byte>), hs: seq<(seq<byte>, seq<byte>)>)
    ensures EmplaceAll(m, [x, y] + hs) == EmplaceAll(Emplace(Emplace(m, x.0, x.1), y.0, y.1), hs)
  {
    assert ([x, y] + hs)[1..] == [y] + hs && ([y] + hs)[1..] == hs;
  }

  lemma NextHeader(data: seq<byte>, m: nat, left: seq<(seq<byte>, seq<byte>)>, tail: seq<byte>)
    requires m <= |data| && data[m..] == PrintHeaders(left) + tail && left != []
    ensures var x, next := left[0], m + |left[0].0| + |left[0].1| + 4;
      && data[m..] == x.0 + [COLON, SP] + x.1 + [CR, LF] + (PrintHeaders(left[1..]) + tail)
      && next <= |data| && data[next..] == PrintHeaders(left[1..]) + tail
  {
    var x, rest := left[0], PrintHeaders(left[1..]) + tail;
    var line := x.0 + [COLON, SP] + x.1 + [CR, LF];
    assert PrintHeaders(left) + tail == line + rest;
    hide PrintHeaders;
    DropLine(data, m, line, rest);
  }

  lemma DropLine(data: seq<byte>, m: nat, line: seq<byte>, rest: seq<byte>)
    requires m <= |data| && data[m..] == line + rest
    ensures m + |line| <= |data| && data[m + |line|..] == rest
  {
    assert data[m + |line|..] == data[m..][|line|..] == rest;
  }

  lemma BlankLineAtEnd(data: seq<byte>, m: nat, left: seq<(seq<byte>, seq<byte>)>, tail: seq<byte>)
    requires m <= |data| && data[m..] == PrintHeaders(left) + tail && |tail| >= 2 && tail[..2] == [CR, LF]
    requires Printable(left)
    ensures m + 2 <= |data| && (data[m] == CR && data[m + 1] == LF <==> left == [])
  {
    var text := data[m..];
    if left == [] {
      assert text[0] == tail[..2][0] && text[1] == tail[..2][1];
    } else {
      assert text[0] == if left[0].0 == [] then COLON else left[0].0[0];
    }
    assert data[m] == text[0];
  }
}
