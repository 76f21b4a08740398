/** Splitting a URL into its parts. */
module HttpUrl {
  import opened Outcomes
  import opened Bytes
  import opened HttpChars
  import opened HttpMachine
  import opened HttpBodies

  datatype Part = Schema | Host | Port | Path | Query | Fragment | Userinfo

  datatype Span = Span(off: nat, len: nat)

  /** The parts found, and the port's number, 0 if there is none. */
  datatype SplitUrl = SplitUrl(parts: map<Part, Span>, port: nat)

  const MAX_URL: nat := 0xffff
  const MAX_PORT: nat := 0xffff

  // --- the states along a URL ---

  function StartOf(connect: bool): UrlState { if connect then ReqServerStart else ReqSpacesBeforeUrl }

  /** The state after n characters. */
  function StateAt(buf: ByteString, connect: bool, n: nat): UrlState
    requires n <= |buf|
  {
    if n == 0 then StartOf(connect) else ParseUrlChar(StateAt(buf, connect, n - 1), buf[n - 1])
  }

  /** The part a character belongs to, by the state after it. */
  function RawPart(u: UrlState): Option<Part> {
    match u
    case ReqSchema => Some(Schema)
    case ReqServer => Some(Host)
    case ReqServerWithAt => Some(Host)
    case ReqPath => Some(Path)
    case ReqQueryString => Some(Query)
    case ReqFragment => Some(Fragment)
    case _ => None
  }

  /** The states come in this order. */
  function Rank(u: UrlState): nat {
    match u
    case ReqSpacesBeforeUrl => 0
    case ReqSchema => 1
    case ReqSchemaSlash => 2
    case ReqSchemaSlashSlash => 3
    case ReqServerStart => 4
    case ReqServer => 5
    case ReqServerWithAt => 5
    case ReqPath => 6
    case ReqQueryStringStart => 7
    case ReqQueryString => 8
    case ReqFragmentStart => 9
    case ReqFragment => 10
    case UrlDead => 11
  }

  function PartRank(f: Part): nat {
    match f
    case Schema => 1
    case Host => 5
    case Path => 6
    case Query => 8
    case Fragment => 10
    case _ => 12
  }

  lemma RanksGrow(s: UrlState, ch: byte)
    ensures Rank(s) <= Rank(ParseUrlChar(s, ch))
  {
    hide IsUrlChar, IsUserinfoChar, IsSchemaChar, IsAlpha;
  }

  lemma RankOfPart(u: UrlState)
    ensures RawPart(u).Some? ==> Rank(u) == PartRank(RawPart(u).value)
    ensures forall f :: Rank(u) == PartRank(f) ==> RawPart(u) == Some(f)
  {
  }

  function PartAt(buf: ByteString, connect: bool, k: nat): Option<Part>
    requires k < |buf|
  {
    RawPart(StateAt(buf, connect, k + 1))
  }

  /** The span holds exactly the characters of the part among the first n, or there are none. */
  predicate Exact(span: Option<Span>, buf: ByteString, connect: bool, n: nat, f: Part)
    requires n <= |buf|
  {
    match span
    case None => forall k :: 0 <= k < n ==> PartAt(buf, connect, k) != Some(f)
    case Some(r) =>
      r.len > 0 && r.off + r.len <= n && forall k :: 0 <= k < n ==>
        (PartAt(buf, connect, k) == Some(f) <==> r.off <= k < r.off + r.len)
  }

  function Of(parts: map<Part, Span>, f: Part): Option<Span> { if f in parts then Some(parts[f]) else None }

  ghost predicate AllExact(parts: map<Part, Span>, buf: ByteString, connect: bool, n: nat)
    requires n <= |buf|
  {
    forall f :: Exact(Of(parts, f), buf, connect, n, f)
  }

  /** No character is out of place. */
  predicate Alive(buf: ByteString, connect: bool, n: nat)
    requires n <= |buf|
  {
    forall k :: 0 <= k <= n ==> !StateAt(buf, connect, k).UrlDead?
  }

  predicate AtSign(buf: ByteString, connect: bool, k: nat)
    requires k < |buf|
  {
    StateAt(buf, connect, k + 1).ReqServerWithAt?
  }

  /** The host is preceded by an '@'. */
  predicate FoundAt(buf: ByteString, connect: bool, n: nat)
    requires n <= |buf|
  {
    exists k :: 0 <= k < n && AtSign(buf, connect, k)
  }

  /** The loop over the URL: the parts so far, the last one, and the place in the order. */
  ghost predicate Scanned(parts: map<Part, Span>, last: Option<Part>, buf: ByteString, connect: bool, n: nat)
    requires n <= |buf|
  {
    var s := StateAt(buf, connect, n);
    && AllExact(parts, buf, connect, n)
    && (last.None? ==> parts == map[] && RawPart(s).None?)
    && (last.Some? ==> last.value in parts && PartRank(last.value) <= Rank(s))
    && (forall f :: f in parts ==> last.Some? && PartRank(f) <= PartRank(last.value))
    && (RawPart(s).Some? && n > 0 ==> last == RawPart(s) && parts[last.value].off + parts[last.value].len == n)
  }

  /** The parts after one more character. */
  function NextParts(parts: map<Part, Span>, last: Option<Part>, f: Option<Part>, n: nat): map<Part, Span> {
    if f.None? then parts
    else if last == f && f.value in parts then parts[f.value := Span(parts[f.value].off, parts[f.value].len + 1)]
    else parts[f.value := Span(n, 1)]
  }

  function NextLast(last: Option<Part>, f: Option<Part>): Option<Part> { if f.None? then last else f }

  /** The parts among the first n characters, and the last one. */
  function Scan(buf: ByteString, connect: bool, n: nat): (map<Part, Span>, Option<Part>)
    requires n <= |buf|
  {
    if n == 0 then (map[], None)
    else
      var (parts, last) := Scan(buf, connect, n - 1);
      (NextParts(parts, last, PartAt(buf, connect, n - 1), n - 1), NextLast(last, PartAt(buf, connect, n - 1)))
  }

  lemma ScanOne(parts: map<Part, Span>, last: Option<Part>, buf: ByteString, connect: bool, n: nat)
    requires n < |buf| && Scanned(parts, last, buf, connect, n) && !StateAt(buf, connect, n + 1).UrlDead?
    ensures
      var f := PartAt(buf, connect, n);
      Scanned(NextParts(parts, last, f, n), NextLast(last, f), buf, connect, n + 1)
  {
    var s, s' := StateAt(buf, connect, n), StateAt(buf, connect, n + 1);
    RanksGrow(s, buf[n]);
    RankOfPart(s);
    RankOfPart(s');
    var f := PartAt(buf, connect, n);
    var parts' := NextParts(parts, last, f, n);
    forall g ensures Exact(Of(parts', g), buf, connect, n + 1, g) {
      assert Exact(Of(parts, g), buf, connect, n, g);
      ExactNext(parts, parts', last, buf, connect, n, g);
    }
  }

  /** The parts found are exactly the characters that belong to them. */
  lemma {:induction false} ScanIsExact(buf: ByteString, connect: bool, n: nat)
    requires n <= |buf| && Alive(buf, connect, n)
    ensures Scanned(Scan(buf, connect, n).0, Scan(buf, connect, n).1, buf, connect, n)
  {
    if n > 0 {
      ScanIsExact(buf, connect, n - 1);
      ScanOne(Scan(buf, connect, n - 1).0, Scan(buf, connect, n - 1).1, buf, connect, n - 1);
    }
  }

  lemma ExactNext(parts: map<Part, Span>, parts': map<Part, Span>, last: Option<Part>, buf: ByteString, connect: bool,
                  n: nat, g: Part)
    requires n < |buf| && Exact(Of(parts, g), buf, connect, n, g)
    requires PartAt(buf, connect, n) != Some(g) ==> Of(parts', g) == Of(parts, g)
    requires PartAt(buf, connect, n) == Some(g) ==>
               if g in parts then g in parts' && parts[g].off + parts[g].len == n &&
                 parts'[g] == Span(parts[g].off, parts[g].len + 1)
               else g in parts' && parts'[g] == Span(n, 1)
    ensures Exact(Of(parts', g), buf, connect, n + 1, g)
  {
  }

  // --- the host ---

  datatype HostState =
    | HostDead | UserinfoStart | InUserinfo | HostStart | V6Start | InHost | V6 | V6End | V6ZoneStart | V6Zone |
      PortStart | InPort

  /** http_parse_host_char. */
  function ParseHostChar(s: HostState, ch: byte): HostState {
    match s
    case UserinfoStart => UserinfoChar(ch)
    case InUserinfo => UserinfoChar(ch)
    case HostStart => if ch == '[' as int then V6Start else if IsHostChar(ch) then InHost else HostDead
    case InHost => if IsHostChar(ch) then InHost else if ch == COLON then PortStart else HostDead
    case V6End => if ch == COLON then PortStart else HostDead
    case V6 =>
      if ch == ']' as int then V6End else if IsV6Char(ch) then V6 else if ch == '%' as int then
        V6ZoneStart else HostDead
    case V6Start => if IsV6Char(ch) then V6 else HostDead
    case V6Zone => if ch == ']' as int then V6End else if IsZoneChar(ch) then V6Zone else HostDead
    case V6ZoneStart => if IsZoneChar(ch) then V6Zone else HostDead
    case InPort => if IsNum(ch) then InPort else HostDead
    case PortStart => if IsNum(ch) then InPort else HostDead
    case HostDead => HostDead
  }

  function UserinfoChar(ch: byte): HostState {
    if ch == '@' as int then HostStart else if IsUserinfoChar(ch) then InUserinfo else HostDead
  }

  predicate IsV6Char(ch: byte) { IsHex(ch) || ch == COLON || ch == DOT }

  predicate IsZoneChar(ch: byte) { IsAlphaNum(ch) || OneOf(ch, "%.-_~") }

  /** The state after the characters of the raw host before position n. */
  function HostStateAt(buf: ByteString, lo: nat, at: bool, n: nat): HostState
    requires lo <= n <= |buf|
  {
    if n == lo then (if at then UserinfoStart else HostStart)
    else ParseHostChar(HostStateAt(buf, lo, at, n - 1), buf[n - 1])
  }

  function HostPart(h: HostState): Option<Part> {
    match h
    case InUserinfo => Some(Userinfo)
    case InHost => Some(Host)
    case V6 => Some(Host)
    case V6ZoneStart => Some(Host)
    case V6Zone => Some(Host)
    case InPort => Some(Port)
    case _ => None
  }

  function HostRank(h: HostState): nat {
    match h
    case UserinfoStart => 0
    case InUserinfo => 1
    case HostStart => 2
    case V6Start => 3
    case InHost => 4
    case V6 => 4
    case V6ZoneStart => 5
    case V6Zone => 6
    case V6End => 7
    case PortStart => 8
    case InPort => 9
    case HostDead => 10
  }

  function HostPartAt(buf: ByteString, lo: nat, at: bool, k: nat): Option<Part>
    requires lo <= k < |buf|
  {
    HostPart(HostStateAt(buf, lo, at, k + 1))
  }

  /** The span holds exactly the characters of the part between lo and n, or there are none. */
  predicate HostExact(span: Option<Span>, buf: ByteString, lo: nat, at: bool, n: nat, f: Part)
    requires lo <= n <= |buf|
  {
    match span
    case None => forall k :: lo <= k < n ==> HostPartAt(buf, lo, at, k) != Some(f)
    case Some(r) =>
      && r.len > 0 && lo <= r.off && r.off + r.len <= n
      && forall k :: lo <= k < n ==> (HostPartAt(buf, lo, at, k) == Some(f) <==> r.off <= k < r.off + r.len)
  }

  predicate HostAlive(buf: ByteString, lo: nat, at: bool, n: nat)
    requires lo <= n <= |buf|
  {
    forall k :: lo <= k <= n ==> !HostStateAt(buf, lo, at, k).HostDead?
  }

  /** The states in which a host may end. */
  predicate HostMayEnd(h: HostState) { h.InHost? || h.V6End? || h.InPort? }

  predicate HostOk(buf: ByteString, lo: nat, at: bool, n: nat)
    requires lo <= n <= |buf|
  {
    HostAlive(buf, lo, at, n) && HostMayEnd(HostStateAt(buf, lo, at, n))
  }

  function LastRank(f: Part): nat { if f.Userinfo? then 1 else if f.Host? then 6 else 9 }

  predicate InHostPart(f: Part) { f.Userinfo? || f.Host? || f.Port? }

  /** The loop over the host, as to one of its parts. */
  predicate HostScanned(span: Option<Span>, buf: ByteString, lo: nat, at: bool, n: nat, f: Part)
    requires lo <= n <= |buf|
  {
    var h := HostStateAt(buf, lo, at, n);
    && HostExact(span, buf, lo, at, n, f)
    && (HostPart(h) == Some(f) ==> span.Some? && span.value.off + span.value.len == n)
    && (span.Some? && HostPart(h) != Some(f) ==> HostRank(h) > LastRank(f))
    && (f.Host? && 4 <= HostRank(h) <= 9 ==> span.Some?)
  }

  /** A part after one more character. */
  function NextSpan(span: Option<Span>, here: bool, n: nat, same: bool): Option<Span> {
    if !here then span
    else if same && span.Some? then Some(Span(span.value.off, span.value.len + 1))
    else Some(Span(n, 1))
  }

  /** A part of the host among the characters between lo and n. */
  function HostScan(buf: ByteString, lo: nat, at: bool, n: nat, f: Part): Option<Span>
    requires lo <= n <= |buf|
  {
    if n == lo then None
    else
      NextSpan(HostScan(buf, lo, at, n - 1, f), HostPartAt(buf, lo, at, n - 1) == Some(f), n - 1,
               HostPart(HostStateAt(buf, lo, at, n - 1)) == Some(f))
  }

  lemma HostRanksGrow(h: HostState, ch: byte)
    ensures HostRank(h) <= HostRank(ParseHostChar(h, ch))
    ensures HostRank(h) < 4 && 4 <= HostRank(ParseHostChar(h, ch)) <= 9 ==> HostPart(ParseHostChar(h, ch)) == Some(Host)
  {
    hide IsHostChar, IsUserinfoChar, IsV6Char, IsZoneChar, IsNum;
  }

  lemma RankOfHostPart(h: HostState, f: Part)
    requires InHostPart(f)
    ensures HostPart(h) == Some(f) ==> HostRank(h) <= LastRank(f)
    ensures (f.Userinfo? && HostRank(h) == 1) || (f.Host? && 4 <= HostRank(h) <= 6) || (f.Port? && HostRank(h) == 9) ==>
      HostPart(h) == Some(f)
  {
  }

  lemma HostExactNext(span: Option<Span>, buf: ByteString, lo: nat, at: bool, n: nat, f: Part, same: bool)
    requires lo <= n < |buf| && HostExact(span, buf, lo, at, n, f)
    requires HostPartAt(buf, lo, at, n) == Some(f) ==>
      if same then span.Some? && span.value.off + span.value.len == n else span.None?
    ensures HostExact(NextSpan(span, HostPartAt(buf, lo, at, n) == Some(f), n, same), buf, lo, at, n + 1, f)
  {
  }

  lemma HostScanOne(span: Option<Span>, buf: ByteString, lo: nat, at: bool, n: nat, f: Part)
    requires lo <= n < |buf| && InHostPart(f) && HostScanned(span, buf, lo, at, n, f) &&
      !HostStateAt(buf, lo, at, n + 1).HostDead?
    ensures HostScanned(NextSpan(span, HostPartAt(buf, lo, at, n) == Some(f), n,
      HostPart(HostStateAt(buf, lo, at, n)) == Some(f)),
                        buf, lo, at, n + 1, f)
  {
    hide ParseHostChar, HostExact;
    var h := HostStateAt(buf, lo, at, n);
    HostRanksGrow(h, buf[n]);
    RankOfHostPart(h, f);
    RankOfHostPart(HostStateAt(buf, lo, at, n + 1), f);
    HostExactNext(span, buf, lo, at, n, f, HostPart(h) == Some(f));
  }

  lemma {:induction false} HostScanIsExact(buf: ByteString, lo: nat, at: bool, n: nat, f: Part)
    requires lo <= n <= |buf| && HostAlive(buf, lo, at, n) && InHostPart(f)
    ensures HostScanned(HostScan(buf, lo, at, n, f), buf, lo, at, n, f)
    decreases n
  {
    if n > lo {
      hide ParseHostChar;
      HostScanIsExact(buf, lo, at, n - 1, f);
      HostScanOne(HostScan(buf, lo, at, n - 1, f), buf, lo, at, n - 1, f);
    }
  }

  // --- the whole URL ---

  /** The parts of the URL once the raw host is split. */
  function WithHost(buf: ByteString, raw: map<Part, Span>, at: bool): map<Part, Span>
    requires Host in raw && raw[Host].off + raw[Host].len <= |buf|
  {
    var lo, hi := raw[Host].off, raw[Host].off + raw[Host].len;
    var u, h, p := HostScan(buf, lo, at, hi, Userinfo), HostScan(buf, lo, at, hi, Host),
      HostScan(buf, lo, at, hi, Port);
    var parts := if h.Some? then raw[Host := h.value] else raw;
    var parts1 := if u.Some? then parts[Userinfo := u.value] else parts;
    if p.Some? then parts1[Port := p.value] else parts1
  }

  /** The URL's parts; None where the URL parser refuses it. */
  function Split(buf: ByteString, connect: bool): Option<SplitUrl> {
    if buf == [] || !Alive(buf, connect, |buf|) then None
    else
      ScanIsExact(buf, connect, |buf|);
      var raw := Scan(buf, connect, |buf|).0;
      if Host !in raw then (if Schema in raw || connect then None else Some(SplitUrl(raw, 0)))
      else
        assert Exact(Of(raw, Host), buf, connect, |buf|, Host);
        var lo, hi, at := raw[Host].off, raw[Host].off + raw[Host].len, FoundAt(buf, connect, |buf|);
        if !HostOk(buf, lo, at, hi) then None
        else
          var parts := WithHost(buf, raw, at);
          if connect && parts.Keys != {Host, Port} then None
          else if Port !in parts then Some(SplitUrl(parts, 0))
          else
            RawHasNoPort(buf, connect, |buf|);
            PortInside(buf, raw, at);
            var port := Value(10, 0, buf[parts[Port].off..parts[Port].off + parts[Port].len]);
            if port > MAX_PORT then None else Some(SplitUrl(parts, port))
  }

  lemma {:induction false} RawHasNoPort(buf: ByteString, connect: bool, n: nat)
    requires n <= |buf|
    ensures Port !in Scan(buf, connect, n).0 && Userinfo !in Scan(buf, connect, n).0
  {
    if n > 0 { RawHasNoPort(buf, connect, n - 1); }
  }

  lemma PortInside(buf: ByteString, raw: map<Part, Span>, at: bool)
    requires Host in raw && raw[Host].off + raw[Host].len <= |buf| && Port !in raw
    requires HostAlive(buf, raw[Host].off, at, raw[Host].off + raw[Host].len)
    ensures Port in WithHost(buf, raw, at) ==>
      WithHost(buf, raw, at)[Port].off + WithHost(buf, raw, at)[Port].len <= |buf|
  {
    HostScanIsExact(buf, raw[Host].off, at, raw[Host].off + raw[Host].len, Port);
  }

  // --- what a split URL is ---

  /** The order of the parts in a URL. */
  function Place(f: Part): nat {
    match f
    case Schema => 0
    case Userinfo => 1
    case Host => 2
    case Port => 3
    case Path => 4
    case Query => 5
    case Fragment => 6
  }

  predicate Before(parts: map<Part, Span>, f: Part, g: Part)
    requires f in parts && g in parts
  {
    parts[f].off + parts[f].len <= parts[g].off
  }

  /** Parts are not empty, lie within the URL, and come in order without overlap. */
  ghost predicate InPlace(parts: map<Part, Span>, lo: nat, hi: nat) {
    && (forall f :: f in parts ==> parts[f].len > 0 && lo <= parts[f].off && parts[f].off + parts[f].len <= hi)
    && (forall f, g :: f in parts && g in parts && Place(f) < Place(g) ==> Before(parts, f, g))
  }

  lemma {:induction false} RanksAscend(buf: ByteString, connect: bool, i: nat, j: nat)
    requires i <= j <= |buf|
    ensures Rank(StateAt(buf, connect, i)) <= Rank(StateAt(buf, connect, j))
    decreases j
  {
    if i < j {
      RanksAscend(buf, connect, i, j - 1);
      RanksGrow(StateAt(buf, connect, j - 1), buf[j - 1]);
    }
  }

  lemma {:induction false} HostRanksAscend(buf: ByteString, lo: nat, at: bool, i: nat, j: nat)
    requires lo <= i <= j <= |buf|
    ensures HostRank(HostStateAt(buf, lo, at, i)) <= HostRank(HostStateAt(buf, lo, at, j))
    decreases j
  {
    if i < j {
      HostRanksAscend(buf, lo, at, i, j - 1);
      HostRanksGrow(HostStateAt(buf, lo, at, j - 1), buf[j - 1]);
    }
  }

  lemma RawInOrder(buf: ByteString, connect: bool, f: Part, r: Span, g: Part, q: Span)
    requires Exact(Some(r), buf, connect, |buf|, f) && Exact(Some(q), buf, connect, |buf|, g) &&
      PartRank(f) < PartRank(g)
    ensures r.off + r.len <= q.off
  {
    var i, j := r.off + r.len - 1, q.off;
    assert PartAt(buf, connect, i) == Some(f) && PartAt(buf, connect, j) == Some(g);
    RankOfPart(StateAt(buf, connect, i + 1));
    RankOfPart(StateAt(buf, connect, j + 1));
    if j < i { RanksAscend(buf, connect, j + 1, i + 1); }
  }

  lemma HostInOrder(buf: ByteString, lo: nat, at: bool, hi: nat, f: Part, r: Span, g: Part, q: Span)
    requires lo <= hi <= |buf| && InHostPart(f) && InHostPart(g) && LastRank(f) < LastRank(g)
    requires HostExact(Some(r), buf, lo, at, hi, f) && HostExact(Some(q), buf, lo, at, hi, g)
    ensures r.off + r.len <= q.off
  {
    var i, j := r.off + r.len - 1, q.off;
    assert HostPartAt(buf, lo, at, i) == Some(f) && HostPartAt(buf, lo, at, j) == Some(g);
    HostRankApart(HostStateAt(buf, lo, at, i + 1), HostStateAt(buf, lo, at, j + 1), f, g);
    if j < i { HostRanksAscend(buf, lo, at, j + 1, i + 1); }
  }

  lemma HostRankApart(h: HostState, h': HostState, f: Part, g: Part)
    requires InHostPart(f) && InHostPart(g) && LastRank(f) < LastRank(g) && HostPart(h) == Some(f) &&
      HostPart(h') == Some(g)
    ensures HostRank(h) < HostRank(h')
  {
  }

  lemma RawInPlace(buf: ByteString, connect: bool)
    requires Alive(buf, connect, |buf|)
    ensures InPlace(Scan(buf, connect, |buf|).0, 0, |buf|)
  {
    ScanIsExact(buf, connect, |buf|);
    RawHasNoPort(buf, connect, |buf|);
    var raw := Scan(buf, connect, |buf|).0;
    forall f, g | f in raw && g in raw && Place(f) < Place(g) ensures Before(raw, f, g) {
      assert Exact(Of(raw, f), buf, connect, |buf|, f) && Exact(Of(raw, g), buf, connect, |buf|, g);
      RawInOrder(buf, connect, f, raw[f], g, raw[g]);
    }
    forall f | f in raw ensures raw[f].len > 0 && raw[f].off + raw[f].len <= |buf| {
      assert Exact(Of(raw, f), buf, connect, |buf|, f);
    }
  }

  /** What is found of the host's parts. */
  lemma HostParts(buf: ByteString, lo: nat, at: bool, hi: nat)
    requires lo <= hi <= |buf| && HostOk(buf, lo, at, hi)
    ensures forall f :: InHostPart(f) ==> HostExact(HostScan(buf, lo, at, hi, f), buf, lo, at, hi, f)
    ensures HostScan(buf, lo, at, hi, Host).Some?
  {
    forall f | InHostPart(f) ensures HostScanned(HostScan(buf, lo, at, hi, f), buf, lo, at, hi, f) {
      HostScanIsExact(buf, lo, at, hi, f);
    }
  }

  /** The part of the host that f is, if it was found. */
  lemma HostPartOf(buf: ByteString, raw: map<Part, Span>, at: bool, f: Part)
    requires Host in raw && raw[Host].off + raw[Host].len <= |buf| && Port !in raw && Userinfo !in raw && InHostPart(f)
    requires HostOk(buf, raw[Host].off, at, raw[Host].off + raw[Host].len)
    ensures
      var lo, hi, parts := raw[Host].off, raw[Host].off + raw[Host].len, WithHost(buf, raw, at);
      f in parts ==> HostExact(Some(parts[f]), buf, lo, at, hi, f)
  {
    hide HostScan, HostOk, HostExact;
    HostParts(buf, raw[Host].off, at, raw[Host].off + raw[Host].len);
  }

  lemma HostOrNot(buf: ByteString, raw: map<Part, Span>, at: bool, f: Part)
    requires Host in raw && raw[Host].off + raw[Host].len <= |buf| && !InHostPart(f)
    ensures f in WithHost(buf, raw, at) <==> f in raw
    ensures f in raw ==> WithHost(buf, raw, at)[f] == raw[f]
  {
    hide HostScan;
  }

  /** Splitting the host keeps the parts in place: its parts lie where the raw host was. */
  lemma HostInPlace(buf: ByteString, raw: map<Part, Span>, at: bool)
    requires InPlace(raw, 0, |buf|) && Host in raw && Port !in raw && Userinfo !in raw
    requires HostOk(buf, raw[Host].off, at, raw[Host].off + raw[Host].len)
    ensures InPlace(WithHost(buf, raw, at), 0, |buf|)
    ensures Host in WithHost(buf, raw, at) && (Schema in WithHost(buf, raw, at) <==> Schema in raw)
  {
    hide WithHost, HostOk;
    var lo, hi := raw[Host].off, raw[Host].off + raw[Host].len;
    var parts := WithHost(buf, raw, at);
    forall f | f in parts
      ensures parts[f].len > 0 && parts[f].off + parts[f].len <= |buf| &&
        (InHostPart(f) ==> lo <= parts[f].off && parts[f].off + parts[f].len <= hi)
    {
      if InHostPart(f) { HostPartOf(buf, raw, at, f); } else { HostOrNot(buf, raw, at, f); }
    }
    forall f, g | f in parts && g in parts && Place(f) < Place(g) ensures Before(parts, f, g) {
      TwoInPlace(buf, raw, at, f, g);
    }
    HostStays(buf, raw, at);
    HostOrNot(buf, raw, at, Schema);
  }

  lemma HostStays(buf: ByteString, raw: map<Part, Span>, at: bool)
    requires Host in raw && raw[Host].off + raw[Host].len <= |buf|
    ensures Host in WithHost(buf, raw, at)
  {
    hide HostScan;
  }

  lemma TwoInPlace(buf: ByteString, raw: map<Part, Span>, at: bool, f: Part, g: Part)
    requires InPlace(raw, 0, |buf|) && Host in raw && Port !in raw && Userinfo !in raw
    requires HostOk(buf, raw[Host].off, at, raw[Host].off + raw[Host].len)
    requires f in WithHost(buf, raw, at) && g in WithHost(buf, raw, at) && Place(f) < Place(g)
    ensures Before(WithHost(buf, raw, at), f, g)
  {
    hide WithHost, HostOk, HostExact;
    var lo, hi, parts := raw[Host].off, raw[Host].off + raw[Host].len, WithHost(buf, raw, at);
    if InHostPart(f) { HostPartOf(buf, raw, at, f); } else { HostOrNot(buf, raw, at, f); }
    if InHostPart(g) { HostPartOf(buf, raw, at, g); } else { HostOrNot(buf, raw, at, g); }
    if InHostPart(f) && InHostPart(g) {
      HostInOrder(buf, lo, at, hi, f, parts[f], g, parts[g]);
    } else if InHostPart(f) {
      Within(buf, lo, at, hi, f, parts[f]);
      assert Before(raw, Host, g);
    } else if InHostPart(g) {
      Within(buf, lo, at, hi, g, parts[g]);
      assert Before(raw, f, Host);
    } else {
      assert Before(raw, f, g);
    }
  }

  lemma Within(buf: ByteString, lo: nat, at: bool, hi: nat, f: Part, r: Span)
    requires lo <= hi <= |buf| && HostExact(Some(r), buf, lo, at, hi, f)
    ensures lo <= r.off && r.off + r.len <= hi
  {
  }

  /** The characters of a port are digits. */
  lemma PortIsDigits(buf: ByteString, lo: nat, at: bool, hi: nat, r: Span)
    requires lo <= hi <= |buf| && HostExact(Some(r), buf, lo, at, hi, Port)
    ensures DecimalDigits(buf[r.off..r.off + r.len])
  {
    forall k | r.off <= k < r.off + r.len ensures IsNum(buf[k]) {
      assert HostPartAt(buf, lo, at, k) == Some(Port);
      PortChar(HostStateAt(buf, lo, at, k), buf[k]);
    }
  }

  lemma PortChar(h: HostState, ch: byte)
    requires HostPart(ParseHostChar(h, ch)) == Some(Port)
    ensures IsNum(ch)
  {
  }

  /**
   * For every URL that is accepted: the parts are contiguous, not empty and within the URL, they come in the
   * order schema, user info, host, port, path, query, fragment without overlap, a schema comes with a host, a
   * URL of a CONNECT request is a host and a port, and the port is the exact number its digits spell.
   */
  lemma SplitIsRight(buf: ByteString, connect: bool)
    requires Split(buf, connect).Some?
    ensures
      var u := Split(buf, connect).value;
      && InPlace(u.parts, 0, |buf|)
      && (Schema in u.parts ==> Host in u.parts)
      && (connect ==> u.parts.Keys == {Host, Port})
      && u.port <= MAX_PORT
      && (if Port in u.parts then
            var digits := buf[u.parts[Port].off..u.parts[Port].off + u.parts[Port].len];
            DecimalDigits(digits) && u.port == Value(10, 0, digits)
          else u.port == 0)
  {
    hide WithHost, HostOk, FoundAt, Alive;
    RawInPlace(buf, connect);
    RawHasNoPort(buf, connect, |buf|);
    var raw := Scan(buf, connect, |buf|).0;
    if Host in raw {
      var lo, hi, at := raw[Host].off, raw[Host].off + raw[Host].len, FoundAt(buf, connect, |buf|);
      HostInPlace(buf, raw, at);
      PortOf(buf, raw, at);
    }
  }

  lemma PortOf(buf: ByteString, raw: map<Part, Span>, at: bool)
    requires Host in raw && raw[Host].off + raw[Host].len <= |buf| && Port !in raw
    requires HostOk(buf, raw[Host].off, at, raw[Host].off + raw[Host].len)
    ensures
      var parts := WithHost(buf, raw, at);
      Port in parts ==>
        && parts[Port].off + parts[Port].len <= |buf|
        && DecimalDigits(buf[parts[Port].off..parts[Port].off + parts[Port].len])
  {
    var lo, hi := raw[Host].off, raw[Host].off + raw[Host].len;
    HostScanIsExact(buf, lo, at, hi, Port);
    if HostScan(buf, lo, at, hi, Port).Some? { PortIsDigits(buf, lo, at, hi, HostScan(buf, lo, at, hi, Port).value); }
  }

  /** Each part but those of the host is exactly the run of characters that the URL parser assigns to it. */
  lemma PartsAreExact(buf: ByteString, connect: bool, f: Part)
    requires Split(buf, connect).Some? && !InHostPart(f)
    ensures Exact(Of(Split(buf, connect).value.parts, f), buf, connect, |buf|, f)
  {
    hide WithHost, HostOk, FoundAt, Alive, Exact;
    ScanIsExact(buf, connect, |buf|);
    var raw := Scan(buf, connect, |buf|).0;
    RawHasNoPort(buf, connect, |buf|);
    assert Exact(Of(raw, f), buf, connect, |buf|, f);
    if Host in raw {
      assert Exact(Of(raw, Host), buf, connect, |buf|, Host);
      SpanInside(raw[Host], buf, connect, Host);
      HostOrNot(buf, raw, FoundAt(buf, connect, |buf|), f);
    }
  }

  lemma SpanInside(r: Span, buf: ByteString, connect: bool, f: Part)
    requires Exact(Some(r), buf, connect, |buf|, f)
    ensures r.off + r.len <= |buf|
  {
  }

  /** The same for the parts of the host, within the range of the raw host. */
  lemma HostPartsAreExact(buf: ByteString, connect: bool, f: Part)
    requires Split(buf, connect).Some? && InHostPart(f)
    ensures
      var raw, parts, at := Of(Scan(buf, connect, |buf|).0, Host), Split(buf, connect).value.parts,
        FoundAt(buf, connect, |buf|);
      if raw.None? then f !in parts
      else
        && raw.value.off + raw.value.len <= |buf|
        && HostExact(Of(parts, f), buf, raw.value.off, at, raw.value.off + raw.value.len, f)
  {
    hide HostScan, HostOk, FoundAt, Alive, Exact, HostExact;
    ScanIsExact(buf, connect, |buf|);
    var raw := Scan(buf, connect, |buf|).0;
    RawHasNoPort(buf, connect, |buf|);
    if Host in raw {
      assert Exact(Of(raw, Host), buf, connect, |buf|, Host);
      SpanInside(raw[Host], buf, connect, Host);
      HostParts(buf, raw[Host].off, FoundAt(buf, connect, |buf|), raw[Host].off + raw[Host].len);
    }
  }

  // --- the loops ---

  /** http_parse_host. */
  method ParseHost(buf: ByteString, raw: map<Part, Span>, at: bool) returns (r: Option<map<Part, Span>>)
    requires Host in raw && raw[Host].off + raw[Host].len <= |buf| && Userinfo !in raw && Port !in raw
    ensures r.Some? <==> HostOk(buf, raw[Host].off, at, raw[Host].off + raw[Host].len)
    ensures r.Some? ==> r.value == WithHost(buf, raw, at)
  {
    var lo, hi := raw[Host].off, raw[Host].off + raw[Host].len;
    var s, p := if at then UserinfoStart else HostStart, lo;
    var user, host, port: Option<Span> := None, None, None;
    while p < hi
      invariant lo <= p <= hi && HostAlive(buf, lo, at, p) && s == HostStateAt(buf, lo, at, p)
      invariant user == HostScan(buf, lo, at, p, Userinfo) && host == HostScan(buf, lo, at, p, Host) &&
        port == HostScan(buf, lo, at, p, Port)
    {
      var next := ParseHostChar(s, buf[p]);
      assert next == HostStateAt(buf, lo, at, p + 1);
      if next.HostDead? { return None; }
      match HostPart(next) {
        case Some(Userinfo) => user := NextSpan(user, true, p, HostPart(s) == Some(Userinfo));
        case Some(Host) => host := NextSpan(host, true, p, HostPart(s) == Some(Host));
        case Some(Port) => port := NextSpan(port, true, p, HostPart(s) == Some(Port));
        case _ =>
      }
      s := next;
      p := p + 1;
    }
    if !HostMayEnd(s) { return None; }
    var parts := raw;
    if host.Some? { parts := parts[Host := host.value]; }
    if user.Some? { parts := parts[Userinfo := user.value]; }
    if port.Some? { parts := parts[Port := port.value]; }
    r := Some(parts);
  }

  /** The number of a port, unless it is too large. */
  method PortNumber(buf: ByteString, r: Span) returns (port: Option<nat>)
    requires r.off + r.len <= |buf| && DecimalDigits(buf[r.off..r.off + r.len])
    ensures
      var v := Value(10, 0, buf[r.off..r.off + r.len]);
      port == if v > MAX_PORT then None else Some(v)
  {
    var v: nat, p, end := 0, r.off, r.off + r.len;
    while p < end
      invariant r.off <= p <= end && v <= MAX_PORT
      invariant Value(10, v, buf[p..end]) == Value(10, 0, buf[r.off..end])
    {
      assert buf[p..end][0] == buf[p] && buf[p..end][1..] == buf[p + 1..end];
      assert IsNum(buf[r.off..end][p - r.off]);
      v := v * 10 + (buf[p] - '0' as int);
      p := p + 1;
      if v > MAX_PORT {
        ValueGrows(10, v, buf[p..end]);
        return None;
      }
    }
    port := Some(v);
  }

  /** The loop of http_parser_parse_url: the raw parts, in which the host still holds user info and port. */
  method ScanUrl(buf: ByteString, connect: bool) returns (ok: bool, raw: map<Part, Span>, at: bool)
    ensures ok <==> Alive(buf, connect, |buf|)
    ensures ok ==> raw == Scan(buf, connect, |buf|).0 && at == FoundAt(buf, connect, |buf|)
  {
    hide ParseUrlChar;
    var s: UrlState, p, last: Option<Part> := StartOf(connect), 0, None;
    raw, at := map[], false;
    while p < |buf|
      invariant p <= |buf| && s == StateAt(buf, connect, p) && Alive(buf, connect, p)
      invariant (raw, last) == Scan(buf, connect, p) && at == FoundAt(buf, connect, p)
      invariant last.Some? ==> last.value in raw
    {
      s := ParseUrlChar(s, buf[p]);
      assert s == StateAt(buf, connect, p + 1) && (s.ReqServerWithAt? <==> AtSign(buf, connect, p));
      if s.UrlDead? { return false, raw, at; }
      var f := RawPart(s);
      if s.ReqServerWithAt? { at := true; }
      p := p + 1;
      if f.None? { continue; }
      raw := raw[f.value := if f == last then Span(raw[f.value].off, raw[f.value].len + 1) else Span(p - 1, 1)];
      last := f;
    }
    ok := true;
  }

  /** http_parser_parse_url, on URLs whose offsets fit 16 bits. */
  method ParseUrl(buf: ByteString, connect: bool) returns (r: Option<SplitUrl>)
    requires |buf| <= MAX_URL
    ensures r == Split(buf, connect)
  {
    hide WithHost, HostOk, FoundAt, Alive, Scan;
    if buf == [] { return None; }
    var ok, raw, at := ScanUrl(buf, connect);
    if !ok { return None; }
    ScanIsExact(buf, connect, |buf|);
    RawHasNoPort(buf, connect, |buf|);
    if Host !in raw { return if Schema in raw || connect then None else Some(SplitUrl(raw, 0)); }
    assert Exact(Of(raw, Host), buf, connect, |buf|, Host);
    var parts := ParseHost(buf, raw, at);
    if parts.None? { return None; }
    if connect && parts.value.Keys != {Host, Port} { return None; }
    if Port !in parts.value { return Some(SplitUrl(parts.value, 0)); }
    PortOf(buf, raw, at);
    var port := PortNumber(buf, parts.value[Port]);
    r := if port.None? then None else Some(SplitUrl(parts.value, port.value));
  }
}
