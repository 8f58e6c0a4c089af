/**
 * The ESP32's link to the cloud relay: the server URL is split into host,
 * port, path and transport; outgoing messages are copied into a bounded
 * queue, binary ones behind a length-and-marker header; and the link can be
 * paused while a local client is active, resumed, enabled and disabled.
 */
module Cloud {
  import opened Wrappers
  import opened Bytes
  import opened Text

  // ---------------------------------------------------------------------------
  // Strings (Arduino String operations used by parseUrl)
  // ---------------------------------------------------------------------------

  /** `String::substring(0, n)`: the first `n` characters, or all of a shorter string. */
  function Take(s: string, n: nat): (r: string)
    ensures |r| <= n && StartsWith(s, r)
  {
    if n <= |s| then s[..n] else s
  }

  predicate IsSpace(c: char) { c == ' ' || c == '\t' || c == '\n' || c == '\r' || c == '\U{000B}' || c == '\U{000C}' }

  /**
   * `String::toInt`, which is `atol`: white space is skipped, an optional sign
   * is read, then the leading digits; anything else reads as 0.
   */
  function ToInt(s: string): int
  {
    if |s| > 0 && IsSpace(s[0]) then ToInt(s[1..])
    else if |s| > 0 && (s[0] == '-' || s[0] == '+') then
      var t := s[1..];
      var v: int := DigitsValue(t[..DigitRun(t)]);
      if s[0] == '-' then -v else v
    else DigitsValue(s[..DigitRun(s)])
  }

  // ---------------------------------------------------------------------------
  // parseUrl (cloud_connection.cpp:487-530)
  // ---------------------------------------------------------------------------

  const HTTPS_PORT: nat := 443
  const HTTP_PORT: nat := 80

  /** Where the link connects: host, TCP port, request path and whether TLS is used. */
  datatype Endpoint = Endpoint(host: string, port: nat, path: string, useSSL: bool)

  /** The transport and the length of the scheme, read case-insensitively from the first 8 characters. */
  function Scheme(url: string): (r: (bool, nat))
    ensures r.1 <= |url|
  {
    var proto := Lower(Take(url, 8));
    if StartsWith(proto, "https://") then (true, 8)
    else if StartsWith(proto, "wss://") then (true, 6)
    else if StartsWith(proto, "http://") then (false, 7)
    else if StartsWith(proto, "ws://") then (false, 5)
    else (true, 0)
  }

  /**
   * Splits a server URL: a secure scheme (https, wss, or none at all) means TLS
   * on 443 and a plain one (http, ws) port 80; the path runs from the first
   * '/' after the scheme, else it is "/"; a ':' before the path gives the port,
   * as `toInt` reads it and cut to 16 bits. It succeeds when the host is not empty.
   */
  function ParseUrl(url: string): (r: (bool, Endpoint))
    ensures r.0 <==> r.1.host != []
    ensures IsU16(r.1.port) && |r.1.path| >= 1 && r.1.path[0] == '/'
  {
    var (ssl, protoEnd) := Scheme(url);
    var (hostPort, path) := SplitPath(url[protoEnd..]);
    var (host, port) := HostPort(hostPort, if ssl then HTTPS_PORT else HTTP_PORT);
    (host != [], Endpoint(host, port, path, ssl))
  }

  /** What follows the scheme, cut at the first '/': the path is "/" when there is none. */
  function SplitPath(remainder: string): (string, string) {
    match IndexOf(remainder, '/')
    case Some(k) => (remainder[..k], remainder[k..])
    case None => (remainder, "/")
  }

  /** The host and port, cut at the first ':', the port read as a decimal modulo 2^16. */
  function HostPort(hostPort: string, defaultPort: nat): (string, nat) {
    match IndexOf(hostPort, ':')
    case Some(c) => (hostPort[..c], ToInt(hostPort[c + 1..]) % U16_LIMIT)
    case None => (hostPort, defaultPort)
  }

  /** A URL fails to parse exactly when nothing, a '/' or a ':' follows the scheme. */
  lemma ParseUrlFails(url: string)
    ensures var protoEnd := Scheme(url).1;
      !ParseUrl(url).0 <==> (protoEnd == |url| || url[protoEnd] == '/' || url[protoEnd] == ':')
  {
    var protoEnd := Scheme(url).1;
    var remainder := url[protoEnd..];
    if |remainder| > 0 {
      assert remainder[0] == url[protoEnd];
      match IndexOf(remainder, '/')
      case Some(k) =>
        if k > 0 {
          assert remainder[..k][0] == remainder[0];
        }
      case None =>
    }
  }

  /** A URL put together from a scheme (in any case), a host, an optional port and a path. */
  function ComposeUrl(scheme: string, host: string, port: Option<nat>, path: string): string {
    scheme + host + PortText(port) + path
  }

  /** The ':port' part of a URL, empty when the scheme's default port is meant. */
  function PortText(port: Option<nat>): string {
    match port case Some(p) => ":" + Decimal(p) case None => ""
  }

  predicate PlainHost(host: string) {
    host != [] && forall k :: 0 <= k < |host| ==> host[k] != '/' && host[k] != ':'
  }

  lemma IndexOfAfter(a: string, b: string, c: char)
    requires forall k :: 0 <= k < |a| ==> a[k] != c
    requires |b| > 0 && b[0] == c
    ensures IndexOf(a + b, c) == Some(|a|)
  {
    assert (a + b)[|a|] == c;
    assert forall k :: 0 <= k < |a| ==> (a + b)[k] == a[k];
  }

  lemma IndexOfNone(a: string, c: char)
    requires forall k :: 0 <= k < |a| ==> a[k] != c
    ensures IndexOf(a, c) == None
  {
  }

  /** The port text, up to the path, reads back as the port. */
  lemma PortReadsBack(p: nat)
    requires IsU16(p)
    ensures ToInt(Decimal(p)) % U16_LIMIT == p
  {
    var d := Decimal(p);
    assert IsDigit(d[0]);
    assert DigitRun(d) == |d| by {
      DigitRunAll(d);
    }
    assert d[..|d|] == d;
    DecimalValue(p);
  }

  lemma {:induction false} DigitRunAll(d: string)
    requires forall k :: 0 <= k < |d| ==> IsDigit(d[k])
    ensures DigitRun(d) == |d|
  {
    if |d| > 0 {
      DigitRunAll(d[1..]);
    }
  }

  /**
   * parseUrl takes apart what ComposeUrl puts together: for the schemes it
   * knows, in any letter case, the host, the port (given or the scheme's
   * default) and the path come back unchanged.
   */
  lemma ParseUrlRoundTrip(scheme: string, host: string, port: Option<nat>, path: string)
    requires Lower(scheme) in {"https://", "wss://", "http://", "ws://"}
    requires PlainHost(host) && |path| >= 1 && path[0] == '/'
    requires port.Some? ==> IsU16(port.value)
    ensures var ssl := Lower(scheme) in {"https://", "wss://"};
      ParseUrl(ComposeUrl(scheme, host, port, path))
        == (true, Endpoint(host, if port.Some? then port.value else if ssl then HTTPS_PORT else HTTP_PORT, path, ssl))
  {
    ComposedScheme(scheme, host, port, path);
    ComposedPath(host, port, path);
    HostPortReadsBack(host, port, if Lower(scheme) in {"https://", "wss://"} then HTTPS_PORT else HTTP_PORT);
  }

  /** A composed URL's scheme is the one it was composed with; the rest follows it. */
  lemma ComposedScheme(scheme: string, host: string, port: Option<nat>, path: string)
    requires Lower(scheme) in {"https://", "wss://", "http://", "ws://"}
    ensures var url := ComposeUrl(scheme, host, port, path);
      Scheme(url) == (Lower(scheme) in {"https://", "wss://"}, |scheme|)
      && url[|scheme|..] == host + PortText(port) + path
  {
    var rest := host + PortText(port) + path;
    assert ComposeUrl(scheme, host, port, path) == scheme + rest;
    SchemeOf(scheme, rest);
  }

  /** The path of a composed URL is cut off at its leading '/'. */
  lemma ComposedPath(host: string, port: Option<nat>, path: string)
    requires PlainHost(host) && |path| >= 1 && path[0] == '/'
    ensures SplitPath(host + PortText(port) + path) == (host + PortText(port), path)
  {
    var hp := host + PortText(port);
    AuthorityNoSlash(host, port);
    IndexOfAfter(hp, path, '/');
    assert (hp + path)[..|hp|] == hp && (hp + path)[|hp|..] == path;
  }

  /** The host and port of a composed URL hold no '/'. */
  lemma AuthorityNoSlash(host: string, port: Option<nat>)
    requires PlainHost(host)
    ensures forall k :: 0 <= k < |host + PortText(port)| ==> (host + PortText(port))[k] != '/'
  {
    var hp := host + PortText(port);
    forall k | 0 <= k < |hp|
      ensures hp[k] != '/'
    {
      if k >= |host| {
        var j := k - |host|;
        if j > 0 {
          assert PortText(port)[j] == Decimal(port.value)[j - 1];
        }
      }
    }
  }

  /** The host and port of a composed URL read back as the host and the port, or the default one. */
  lemma HostPortReadsBack(host: string, port: Option<nat>, defaultPort: nat)
    requires PlainHost(host) && (port.Some? ==> IsU16(port.value))
    ensures HostPort(host + PortText(port), defaultPort) == (host, if port.Some? then port.value else defaultPort)
  {
    match port
    case Some(p) =>
      GivenPortReadsBack(host, p, defaultPort);
    case None =>
      assert host + PortText(port) == host;
      IndexOfNone(host, ':');
  }

  /** A port written after the host reads back as that port. */
  lemma GivenPortReadsBack(host: string, p: nat, defaultPort: nat)
    requires PlainHost(host) && IsU16(p)
    ensures HostPort(host + (":" + Decimal(p)), defaultPort) == (host, p)
  {
    var hp := host + (":" + Decimal(p));
    assert IndexOf(hp, ':') == Some(|host|) by {
      IndexOfAfter(host, ":" + Decimal(p), ':');
    }
    assert hp[..|host|] == host && hp[|host| + 1..] == Decimal(p);
    PortReadsBack(p);
  }

  /** The scheme of a composed URL is read from its first characters, whatever follows. */
  lemma SchemeOf(scheme: string, rest: string)
    requires Lower(scheme) in {"https://", "wss://", "http://", "ws://"}
    ensures Scheme(scheme + rest) == (Lower(scheme) in {"https://", "wss://"}, |scheme|)
  {
    var url := scheme + rest;
    var proto := Lower(Take(url, 8));
    assert Take(url, 8)[..|scheme|] == scheme;
    assert proto[..|scheme|] == Lower(scheme);
    var ls := Lower(scheme);
    if ls == "wss://" {
      assert !StartsWith(proto, "https://") by {
        assert proto[0] == 'w';
      }
    } else if ls == "http://" {
      assert !StartsWith(proto, "https://") by {
        assert proto[4] == ':';
      }
      assert !StartsWith(proto, "wss://") by {
        assert proto[0] == 'h';
      }
    } else if ls == "ws://" {
      assert !StartsWith(proto, "https://") && !StartsWith(proto, "http://") by {
        assert proto[0] == 'w';
      }
      assert !StartsWith(proto, "wss://") by {
        assert proto[2] == ':';
      }
    }
  }

  // ---------------------------------------------------------------------------
  // Outgoing messages (cloud_connection.cpp:672-697, 726-825)
  // ---------------------------------------------------------------------------

  const SEND_QUEUE_SIZE: nat := 20
  const MAX_MSG_SIZE: nat := 2048
  const MAX_PER_CALL: nat := 10
  const BINARY_MARKER: byte := 0x01
  const PAUSE_MS: nat := 30000
  const RECONNECT_DELAY_MS: nat := 5000

  /** A binary message as queued: its length as a big-endian 32-bit word, the marker 0x01, then the data. */
  function BinaryFrame(data: seq<byte>): (r: seq<byte>)
    requires IsU32(|data|)
    ensures |r| == |data| + 5
  {
    BE32(|data|) + [BINARY_MARKER] + data
  }

  /** A text message as queued: its characters and the terminating NUL. */
  function TextCopy(text: seq<byte>): (r: seq<byte>)
    ensures |r| == |text| + 1
  {
    text + [0]
  }

  /** What the socket is given for a queued message. */
  datatype Outgoing = Bin(data: seq<byte>) | Txt(text: seq<byte>)

  /** The characters of a C string, up to its first NUL. */
  function CStr(s: seq<byte>): (r: seq<byte>)
    ensures |r| <= |s| && forall k :: 0 <= k < |r| ==> r[k] == s[k] && r[k] != 0
    ensures |r| < |s| ==> s[|r|] == 0
  {
    if |s| == 0 || s[0] == 0 then [] else [s[0]] + CStr(s[1..])
  }

  /**
   * Whether the marker check of the send loop reads inside the message copy:
   * it always reads the fifth byte, which a text of three characters or fewer
   * does not have.
   */
  predicate MarkerReadInBounds(msg: seq<byte>) {
    4 < |msg|
  }

  /** The copy of the text "{}" is three bytes long, so the marker check reads past it. */
  lemma ShortTextReadsPastCopy()
    ensures !MarkerReadInBounds(TextCopy(['{' as byte, '}' as byte]))
  {
  }

  /**
   * How a queued message goes out, with the marker read only when the copy
   * has a fifth byte: after the marker, as many data bytes as the header says
   * (within the copy), else the text up to its NUL.
   */
  function Delivered(msg: seq<byte>): (r: Outgoing)
  {
    if MarkerReadInBounds(msg) && msg[4] == BINARY_MARKER then
      var len := DecodeBE32(msg[..4]);
      Bin(msg[5..if 5 + len <= |msg| then 5 + len else |msg|])
    else Txt(CStr(msg))
  }

  /** Binary data goes out as exactly the data that was queued. */
  lemma BinaryRoundTrip(data: seq<byte>)
    requires IsU32(|data|)
    ensures Delivered(BinaryFrame(data)) == Bin(data)
  {
    var f := BinaryFrame(data);
    assert f[..4] == BE32(|data|);
    BE32RoundTrip(|data|);
    assert f[5..] == data;
  }

  /** A text without NUL bytes, whose fifth byte is not the marker, goes out as itself. */
  lemma {:induction false} TextRoundTrip(text: seq<byte>)
    requires forall k :: 0 <= k < |text| ==> text[k] != 0
    requires |text| > 4 ==> text[4] != BINARY_MARKER
    ensures Delivered(TextCopy(text)) == Txt(text)
  {
    CStrOfCopy(text);
  }

  lemma {:induction false} CStrOfCopy(text: seq<byte>)
    requires forall k :: 0 <= k < |text| ==> text[k] != 0
    ensures CStr(TextCopy(text)) == text
  {
    if |text| > 0 {
      assert TextCopy(text)[1..] == TextCopy(text[1..]);
      CStrOfCopy(text[1..]);
    }
  }

  // ---------------------------------------------------------------------------
  // The connection object
  // ---------------------------------------------------------------------------

  class CloudConnection {
    var enabled: bool
    var connected: bool
    var connecting: bool
    /** `millis()` until which the link stays paused for a local client; 0 when not paused. */
    var pausedUntil: nat
    var lastConnectAttempt: nat
    var reconnectDelay: nat
    /** The send queue: copies of the messages waiting to go out, oldest first. */
    var queue: seq<seq<byte>>
    /** Whether `xQueueCreate` gave the connection its send queue. */
    var hasQueue: bool

    ghost predicate Valid()
      reads this
    {
      |queue| <= SEND_QUEUE_SIZE && IsU32(pausedUntil) && IsU32(lastConnectAttempt)
      && (!hasQueue ==> queue == [])
    }

    /** `queueCreated` is whether the queue's creation succeeded. */
    constructor(queueCreated: bool)
      ensures Valid()
      ensures !enabled && !connected && !connecting && hasQueue == queueCreated
      ensures pausedUntil == 0 && lastConnectAttempt == 0 && reconnectDelay == RECONNECT_DELAY_MS && queue == []
    {
      enabled := false;
      connected := false;
      connecting := false;
      pausedUntil := 0;
      lastConnectAttempt := 0;
      reconnectDelay := RECONNECT_DELAY_MS;
      queue := [];
      hasQueue := queueCreated;
    }

    /** The state shown to the user: disabled, connected, connecting or disconnected. */
    function GetStatus(): (r: string)
      reads this
      ensures r == "disabled" <==> !enabled
      ensures r == "connected" <==> enabled && connected
      ensures r == "connecting" <==> enabled && !connected && connecting
      ensures r == "disconnected" <==> enabled && !connected && !connecting
    {
      if !enabled then "disabled"
      else if connected then "connected"
      else if connecting then "connecting"
      else "disconnected"
    }

    /**
     * A local client is active: pause for 30 s from `now` (extending a pause
     * already running); a fresh pause drops the link and counts as a connect
     * attempt.
     */
    method Pause(now: nat)
      requires Valid() && IsU32(now)
      modifies this
      ensures Valid()
      ensures pausedUntil == Wrap32(now + PAUSE_MS)
      ensures if now < old(pausedUntil) || !(old(connected) || old(connecting))
        then connected == old(connected) && connecting == old(connecting) && lastConnectAttempt == old(lastConnectAttempt)
        else !connected && !connecting && lastConnectAttempt == now
      ensures enabled == old(enabled) && reconnectDelay == old(reconnectDelay) && queue == old(queue)
      ensures hasQueue == old(hasQueue)
    {
      var newPauseUntil := Wrap32(now + PAUSE_MS);
      if now < pausedUntil {
        pausedUntil := newPauseUntil;
        return;
      }
      pausedUntil := newPauseUntil;
      if connected || connecting {
        connected := false;
        connecting := false;
        lastConnectAttempt := now;
      }
    }

    /** The local client left: end the pause and allow a connect attempt at once. */
    method Resume()
      requires Valid()
      modifies this
      ensures Valid()
      ensures pausedUntil == 0
      ensures lastConnectAttempt == if old(pausedUntil) > 0 then 0 else old(lastConnectAttempt)
      ensures enabled == old(enabled) && connected == old(connected) && connecting == old(connecting)
      ensures reconnectDelay == old(reconnectDelay) && queue == old(queue) && hasQueue == old(hasQueue)
    {
      if pausedUntil > 0 {
        pausedUntil := 0;
        lastConnectAttempt := 0;
      }
    }

    /**
     * Queues a text message when the queue exists, the link is connected, the
     * text is shorter than the message limit, the copy could be allocated
     * (`allocOk`: PSRAM or, failing that, the heap) and the queue has room.
     */
    method Send(text: seq<byte>, allocOk: bool)
      requires Valid() && forall k :: 0 <= k < |text| ==> text[k] != 0
      modifies this
      ensures Valid() && hasQueue == old(hasQueue)
      ensures queue == if connected && hasQueue && |text| < MAX_MSG_SIZE && allocOk && |old(queue)| < SEND_QUEUE_SIZE
        then old(queue) + [TextCopy(text)] else old(queue)
      ensures enabled == old(enabled) && connected == old(connected) && connecting == old(connecting)
      ensures pausedUntil == old(pausedUntil) && lastConnectAttempt == old(lastConnectAttempt)
      ensures reconnectDelay == old(reconnectDelay)
    {
      if !connected || !hasQueue {
        return;
      }
      if |text| >= MAX_MSG_SIZE {
        return;
      }
      if allocOk && |queue| < SEND_QUEUE_SIZE {
        queue := queue + [TextCopy(text)];
      }
    }

    /**
     * Queues binary data behind its header when the queue exists, the link is
     * connected, the data is not empty and shorter than the limit less the
     * five header bytes, the copy could be allocated and the queue has room.
     */
    method SendBinary(data: seq<byte>, allocOk: bool)
      requires Valid()
      modifies this
      ensures Valid() && hasQueue == old(hasQueue)
      ensures queue == if connected && hasQueue && 0 < |data| < MAX_MSG_SIZE - 5 && allocOk && |old(queue)| < SEND_QUEUE_SIZE
        then old(queue) + [BinaryFrame(data)] else old(queue)
      ensures enabled == old(enabled) && connected == old(connected) && connecting == old(connecting)
      ensures pausedUntil == old(pausedUntil) && lastConnectAttempt == old(lastConnectAttempt)
      ensures reconnectDelay == old(reconnectDelay)
    {
      if !connected || !hasQueue || |data| == 0 {
        return;
      }
      if |data| >= MAX_MSG_SIZE - 5 || !allocOk {
        return;
      }
      var frame := new byte[|data| + 5];
      var len32 := |data|;
      frame[0] := Byte(len32 / 0x100_0000);
      frame[1] := Byte(len32 / 0x1_0000 % 0x100);
      frame[2] := Byte(len32 / 0x100 % 0x100);
      frame[3] := Byte(len32 % 0x100);
      frame[4] := BINARY_MARKER;
      forall i | 0 <= i < |data| {
        frame[5 + i] := data[i];
      }
      assert frame[..] == BinaryFrame(data);
      if |queue| < SEND_QUEUE_SIZE {
        queue := queue + [frame[..]];
      }
    }

    /**
     * Sends up to ten queued messages, oldest first, when connected: each
     * goes out as `Delivered` reads it, and leaves the queue.
     */
    method ProcessSendQueue() returns (sent: seq<Outgoing>)
      requires Valid()
      modifies this
      ensures Valid()
      ensures var n := if old(connected) then Min(MAX_PER_CALL, |old(queue)|) else 0;
        queue == old(queue)[n..] && |sent| == n
        && forall k :: 0 <= k < n ==> sent[k] == Delivered(old(queue)[k])
      ensures enabled == old(enabled) && connected == old(connected) && connecting == old(connecting)
      ensures pausedUntil == old(pausedUntil) && lastConnectAttempt == old(lastConnectAttempt)
      ensures reconnectDelay == old(reconnectDelay) && hasQueue == old(hasQueue)
    {
      sent := [];
      if !hasQueue || !connected {
        return;
      }
      var processed := 0;
      while processed < MAX_PER_CALL && |queue| > 0
        invariant processed <= MAX_PER_CALL && processed <= |old(queue)|
        invariant queue == old(queue)[processed..] && |sent| == processed
        invariant forall k :: 0 <= k < processed ==> sent[k] == Delivered(old(queue)[k])
        invariant enabled == old(enabled) && connected == old(connected) && connecting == old(connecting)
        invariant pausedUntil == old(pausedUntil) && lastConnectAttempt == old(lastConnectAttempt)
        invariant reconnectDelay == old(reconnectDelay) && hasQueue == old(hasQueue)
        decreases |queue|
      {
        var msg := queue[0];
        queue := queue[1..];
        sent := sent + [Delivered(msg)];
        processed := processed + 1;
      }
    }

    /** Enabling starts with a one-second reconnect delay; disabling ends the link. */
    method SetEnabled(on: bool)
      requires Valid()
      modifies this
      ensures Valid()
      ensures enabled == on
      ensures on && !old(enabled) ==>
        reconnectDelay == 1000 && connected == old(connected) && connecting == old(connecting) && queue == old(queue)
      ensures !on && old(enabled) ==> !connected && !connecting && queue == []
      ensures on == old(enabled) ==>
        connected == old(connected) && connecting == old(connecting) && queue == old(queue)
        && reconnectDelay == old(reconnectDelay)
      ensures pausedUntil == old(pausedUntil) && lastConnectAttempt == old(lastConnectAttempt) && hasQueue == old(hasQueue)
    {
      if on && !enabled {
        enabled := true;
        reconnectDelay := 1000;
      } else if !on && enabled {
        End();
      }
    }

    /** Disables the link: drops the connection and frees every queued message. */
    method End()
      requires Valid()
      modifies this
      ensures Valid()
      ensures !enabled && !connected && !connecting && queue == []
      ensures pausedUntil == old(pausedUntil) && lastConnectAttempt == old(lastConnectAttempt)
      ensures reconnectDelay == old(reconnectDelay) && hasQueue == old(hasQueue)
    {
      enabled := false;
      connected := false;
      connecting := false;
      while |queue| > 0
        invariant Valid()
        invariant !enabled && !connected && !connecting
        invariant pausedUntil == old(pausedUntil) && lastConnectAttempt == old(lastConnectAttempt)
        invariant reconnectDelay == old(reconnectDelay) && hasQueue == old(hasQueue)
        decreases |queue|
      {
        queue := queue[1..];
      }
    }
  }

  function Min(a: nat, b: nat): nat { if a <= b then a else b }
}
