/** The type-length-value encoding of the emulation API: building string TLVs, parsing headers
    and messages. Numeric values are kept as the bytes they are read from. */
module Tlv {
  import opened Sequences

  type byte = x: int | 0 <= x < 256

  datatype Header = Header(kind: int, length: nat)

  /** A TLV to be sent. */
  datatype StringTlv = StringTlv(kind: int, data: seq<byte>)

  /** What the caller of the parser knows: the name of each type, and the size of each name,
      where -1 stands for a string. */
  datatype Schema = Schema(names: map<int, string>, sizes: map<string, int>) {
    ghost predicate Complete() {
      forall k :: k in names ==> names[k] in sizes
    }
  }

  datatype Parsed = Parsed(vals: map<string, seq<byte>>, end: nat)

  /** Padding to a 32-bit boundary, header included. The remainder is never negative. */
  function Pad32(len: nat): nat {
    var size := if len < 256 then 2 else 4;
    -(size + len) % 4
  }

  function Word(high: int, low: int): int {
    high * 256 + low
  }

  /** The low byte of a number, as written by a one-byte format. */
  function LowByte(x: int): byte {
    x % 256
  }

  function SignedByte(b: byte): int {
    if b < 128 then b else b - 256
  }

  function Zeros(n: nat): (z: seq<byte>)
    ensures |z| == n
  {
    seq(n, _ => 0)
  }

  // ----- building -----

  /** Data beyond 65536 bytes is cut off; empty data gives nothing at all. */
  function BuildStringTlv(kind: int, data: seq<byte>): seq<byte> {
    var d := if |data| > 65536 then data[..65536] else data;
    if |d| == 0 then []
    else TlvHeader(kind, |d|) + d + Zeros(Pad32(|d|))
  }

  function TlvHeader(kind: int, len: nat): (h: seq<byte>)
    ensures |h| == if len > 255 then 4 else 2
  {
    if len > 255 then [LowByte(kind), 0, LowByte(len / 256), LowByte(len)] else [LowByte(kind), LowByte(len)]
  }

  /** Every TLV fills whole 32-bit words. */
  lemma BuiltInWords(kind: int, data: seq<byte>)
    ensures |BuildStringTlv(kind, data)| % 4 == 0
  {
    var n := if |data| > 65536 then 65536 else |data|;
    Padded(n);
    hide Pad32;
  }

  lemma Padded(len: nat)
    ensures ((if len > 255 then 4 else 2) + len + Pad32(len)) % 4 == 0 && Pad32(len) < 4
  {}

  /** Every byte of a TLV: type, length in one byte or behind a zero in two with the high byte first, data,
      and fewer than 4 zeros. */
  lemma BuiltLayout(kind: int, data: seq<byte>)
    requires 0 <= kind < 256 && 1 <= |data| <= 65535
    ensures var b, n := BuildStringTlv(kind, data), |data|;
            var h := if n < 256 then 2 else 4;
            && h + n <= |b| < h + n + 4 && |b| % 4 == 0 && b[0] == kind && b[h..h + n] == data
            && (if n < 256 then b[1] == n else b[1] == 0 && b[2] == n / 256 && b[3] == n % 256)
            && forall k :: h + n <= k < |b| ==> b[k] == 0
  {
    Padded(|data|);
    hide Pad32;
  }

  // ----- parsing -----

  /** The header at current, and where the data begins. */
  function HeaderAt(data: seq<byte>, current: nat): (r: (Option<Header>, nat))
    ensures r.0.Some? ==> r.1 >= current + 2
  {
    if current + 2 > |data| then (None, current)
    else
      var kind, length := SignedByte(data[current]), data[current + 1];
      if length != 0 then (Some(Header(kind, length)), current + 2)
      else if kind == 0 then (None, current)
      else if current + 4 > |data| then (None, current + 2)
      else
        var long: nat := Word(data[current + 2], data[current + 3]);
        if long == 0 then (Some(Header(kind, 0)), current + 2) else (Some(Header(kind, long)), current + 4)
  }

  /** The number of bytes a value of the given size is read from. */
  function ReadSize(size: int, length: nat): Option<nat> {
    if size == -1 then Some(length) else if size == 2 || size == 4 || size == 8 || size == 16 then Some(size) else None
  }

  /** A value that does not fit into the data leaves the old one. */
  function ReadValue(data: seq<byte>, at: nat, size: int, length: nat, name: string,
                     vals: map<string, seq<byte>>): map<string, seq<byte>> {
    match ReadSize(size, length)
    case None => vals
    case Some(n) =>
      var end := at + n;
      if end <= |data| then vals[name := data[at..end]] else vals
  }

  /** One TLV of a known type: the new values and the next position. */
  function ParseValue(schema: Schema, data: seq<byte>, header: Header, at: nat,
                      vals: map<string, seq<byte>>): (p: Parsed)
    requires schema.Complete() && header.kind in schema.names
    ensures p.end >= at + header.length
  {
    var name := schema.names[header.kind];
    var size, pad := schema.sizes[name], Pad32(header.length);
    var start := if size == 4 || size == 8 then at + pad else at;
    var after := start + (if size == -1 then pad else 0) + (if header.kind == 6 then pad else 0) + header.length;
    Parsed(ReadValue(data, start, size, header.length, name, vals), after)
  }

  /** The message from current on. Unknown types are skipped without their padding; an empty
      or unreadable header ends the message. */
  function ParseFrom(schema: Schema, data: seq<byte>, len: nat, vals: map<string, seq<byte>>, current: nat): Parsed
    requires schema.Complete()
    decreases len - current
  {
    if current >= len then Parsed(vals, current)
    else
      var (header, at) := HeaderAt(data, current);
      if header.None? || header.value.length == 0 then Parsed(vals, at)
      else if header.value.kind !in schema.names then ParseFrom(schema, data, len, vals, at + header.value.length)
      else
        var next := ParseValue(schema, data, header.value, at, vals);
        ParseFrom(schema, data, len, next.vals, next.end)
  }

  /** Reads a header and advances current. */
  method ParseTlvHeader(data: seq<byte>, start: nat) returns (header: Option<Header>, current: nat)
    ensures (header, current) == HeaderAt(data, start)
  {
    current := start;
    if current + 2 > |data| {
      return None, current;
    }
    var kind := SignedByte(data[current]);
    var length: nat := data[current + 1];
    if length == 0 {
      if kind == 0 {
        return None, current;
      } else {
        current := current + 2;
        if current + 2 > |data| {
          return None, current;
        }
        length := Word(data[current], data[current + 1]);
        if length == 0 {
          current := current - 2;
        }
      }
    }
    current := current + 2;
    header := Some(Header(kind, length));
  }

  /** The parser: it comes to an end on every byte string. */
  method ParseMessage(schema: Schema, data: seq<byte>, len: nat, defaults: map<string, seq<byte>>)
    returns (vals: map<string, seq<byte>>, current: nat)
    requires schema.Complete()
    ensures Parsed(vals, current) == ParseFrom(schema, data, len, defaults, 0)
  {
    hide HeaderAt, Pad32;
    vals, current := defaults, 0;
    while current < len
      invariant ParseFrom(schema, data, len, vals, current) == ParseFrom(schema, data, len, defaults, 0)
      decreases len - current
    {
      var header, at := ParseTlvHeader(data, current);
      if header.None? || header.value.length == 0 {
        current := at;
        return;
      }
      var length := header.value.length;
      var pad := Pad32(length);
      if header.value.kind !in schema.names {
        current := at + length;
        continue;
      }
      var name := schema.names[header.value.kind];
      var size := schema.sizes[name];
      var start := at;
      if size == 4 || size == 8 {
        start := start + pad;
      }
      vals := ReadValue(data, start, size, length, name, vals);
      current := start;
      if size == -1 {
        current := current + pad;
      }
      if header.value.kind == 6 {
        current := current + pad;
      }
      current := current + length;
    }
  }

  // ----- parsing undoes building -----

  /** A type that the receiver reads as a string and that fits into a signed byte. */
  ghost predicate StringKind(schema: Schema, kind: int) {
    schema.Complete() && 1 <= kind <= 127 && kind in schema.names && schema.sizes[schema.names[kind]] == -1
  }

  /** Sizes that the header can express; type 6 is padded twice by the parser, so there must
      not be any padding. */
  predicate Sendable(t: StringTlv) {
    1 <= |t.data| <= 65535 && (t.kind == 6 ==> Pad32(|t.data|) == 0)
  }

  ghost predicate AllSendable(schema: Schema, ts: seq<StringTlv>) {
    && schema.Complete()
    && forall k :: 0 <= k < |ts|
         ==> ts[k].kind in schema.names && StringKind(schema, ts[k].kind) && Sendable(ts[k])
  }

  /** A header is read back wherever it stands: every type of a signed byte; type 0 only with a short length. */
  lemma HeaderRoundTrip(pre: seq<byte>, kind: int, len: nat, rest: seq<byte>)
    requires -128 <= kind <= 127 && 1 <= len <= 65535 && (kind == 0 ==> len <= 255)
    ensures HeaderAt(pre + TlvHeader(kind, len) + rest, |pre|)
      == (Some(Header(kind, len)), |pre| + |TlvHeader(kind, len)|)
  {
    var data, h := pre + TlvHeader(kind, len) + rest, TlvHeader(kind, len);
    var at := |pre|;
    assert data[at] == h[0] && data[at + 1] == h[1];
    if len > 255 {
      assert data[at + 2] == h[2] && data[at + 3] == h[3];
      BigEndian(len);
    }
  }

  lemma BigEndian(len: nat)
    requires len < 65536
    ensures Word(LowByte(len / 256), LowByte(len)) == len
  {}

  /** One TLV in the middle of a message. */
  lemma OneTlv(schema: Schema, pre: seq<byte>, t: StringTlv, rest: seq<byte>, vals: map<string, seq<byte>>)
    requires StringKind(schema, t.kind) && 1 <= |t.data| <= 65535
    ensures var b := BuildStringTlv(t.kind, t.data);
            var data := pre + b + rest;
            ParseFrom(schema, data, |data|, vals, |pre|)
            == ParseFrom(schema, data, |data|, vals[schema.names[t.kind] := t.data],
                         |pre| + |b| + if t.kind == 6 then Pad32(|t.data|) else 0)
  {
    hide *;
    var n := |t.data|;
    var h, z := TlvHeader(t.kind, n), Zeros(Pad32(n));
    BuiltParts(t);
    var data, at := pre + (h + t.data + z) + rest, |pre| + |h|;
    TlvBytes(pre, h, t.data, z, rest);
    IsNamed(schema, t.kind);
    HeaderRoundTrip(pre, t.kind, n, t.data + z + rest);
    assert data[at..at + n] == t.data;
    StringValue(schema, data, Header(t.kind, n), at, vals, t.data);
    ParseStep(schema, data, |data|, vals, |pre|, Header(t.kind, n), at);
  }

  lemma IsNamed(schema: Schema, kind: int)
    requires StringKind(schema, kind)
    ensures schema.Complete() && 1 <= kind <= 127 && kind in schema.names
  {}

  lemma BuiltParts(t: StringTlv)
    requires 1 <= |t.data| <= 65535
    ensures BuildStringTlv(t.kind, t.data) == TlvHeader(t.kind, |t.data|) + t.data + Zeros(Pad32(|t.data|))
  {}

  lemma TlvBytes(pre: seq<byte>, h: seq<byte>, d: seq<byte>, z: seq<byte>, rest: seq<byte>)
    ensures pre + (h + d + z) + rest == pre + h + (d + z + rest)
    ensures var data, at := pre + (h + d + z) + rest, |pre| + |h|;
            at + |d| <= |data| && data[at..at + |d|] == d
  {}

  lemma StringValue(schema: Schema, data: seq<byte>, header: Header, at: nat, vals: map<string, seq<byte>>,
                    d: seq<byte>)
    requires StringKind(schema, header.kind) && at + header.length <= |data| && data[at..at + header.length] == d
    ensures ParseValue(schema, data, header, at, vals)
         == Parsed(vals[schema.names[header.kind] := d],
                   at + Pad32(header.length) + (if header.kind == 6 then Pad32(header.length) else 0) + header.length)
  {
    hide Pad32;
  }

  lemma ParseStep(schema: Schema, data: seq<byte>, len: nat, vals: map<string, seq<byte>>, current: nat, header: Header,
                  at: nat)
    requires schema.Complete() && current < len && HeaderAt(data, current) == (Some(header), at)
    requires header.length > 0 && header.kind in schema.names
    ensures var next := ParseValue(schema, data, header, at, vals);
            ParseFrom(schema, data, len, vals, current) == ParseFrom(schema, data, len, next.vals, next.end)
  {
    hide HeaderAt, ParseValue;
  }

  // ----- numbers and unknown types -----

  /** A number of 2, 4, 8 or 16 bytes in a message: behind two bytes of padding if it has 4 or 8 bytes. It is
      the value found, and the parser goes on behind it; after type 6 it skips the padding once more. */
  lemma NumberRead(schema: Schema, pre: seq<byte>, kind: int, pad: seq<byte>, v: seq<byte>, rest: seq<byte>,
                   vals: map<string, seq<byte>>)
    requires schema.Complete() && -128 <= kind <= 127 && kind in schema.names
    requires schema.sizes[schema.names[kind]] == |v|
    requires |v| == 2 || |v| == 4 || |v| == 8 || |v| == 16
    requires |pad| == if |v| == 4 || |v| == 8 then 2 else 0
    ensures var data := pre + ([if kind < 0 then kind + 256 else kind, |v|] + pad + v) + rest;
            ParseFrom(schema, data, |data|, vals, |pre|)
            == ParseFrom(schema, data, |data|, vals[schema.names[kind] := v],
                         |pre| + 2 + |pad| + |v| + if kind == 6 && |v| != 2 then 2 else 0)
  {
    var h := [if kind < 0 then kind + 256 else kind, |v|];
    var data, at := pre + (h + pad + v) + rest, |pre| + 2;
    assert h == TlvHeader(kind, |v|);
    assert data == pre + h + (pad + v + rest);
    HeaderRoundTrip(pre, kind, |v|, pad + v + rest);
    assert data[at + |pad|..at + |pad| + |v|] == v;
    NumberValue(schema, data, Header(kind, |v|), at, vals, v);
    hide *;
    ParseStep(schema, data, |data|, vals, |pre|, Header(kind, |v|), at);
  }

  lemma NumberValue(schema: Schema, data: seq<byte>, header: Header, at: nat, vals: map<string, seq<byte>>,
                    v: seq<byte>)
    requires schema.Complete() && header.kind in schema.names && header.length == |v|
    requires schema.sizes[schema.names[header.kind]] == |v|
    requires |v| == 2 || |v| == 4 || |v| == 8 || |v| == 16
    requires var start := at + if |v| == 4 || |v| == 8 then 2 else 0;
             start + |v| <= |data| && data[start..start + |v|] == v
    ensures ParseValue(schema, data, header, at, vals)
         == Parsed(vals[schema.names[header.kind] := v],
                   at + (if |v| == 4 || |v| == 8 then 2 else 0) + |v| + if header.kind == 6 && |v| != 2 then 2 else 0)
  {}

  /** A TLV of an unknown type is skipped up to its padding: the parser goes on at the next TLV if and only if
      header and data fill whole words. */
  lemma UnknownSkipped(schema: Schema, pre: seq<byte>, t: StringTlv, rest: seq<byte>, vals: map<string, seq<byte>>)
    requires schema.Complete() && 1 <= t.kind <= 127 && t.kind !in schema.names && 1 <= |t.data| <= 65535
    ensures var b, n := BuildStringTlv(t.kind, t.data), |t.data|;
            var data, next := pre + b + rest, |pre| + (if n < 256 then 2 else 4) + n;
            && ParseFrom(schema, data, |data|, vals, |pre|) == ParseFrom(schema, data, |data|, vals, next)
            && (next == |pre| + |b| <==> ((if n < 256 then 2 else 4) + n) % 4 == 0)
  {
    hide *;
    var n := |t.data|;
    var h, z := TlvHeader(t.kind, n), Zeros(Pad32(n));
    BuiltParts(t);
    Padded(n);
    var data := pre + (h + t.data + z) + rest;
    TlvBytes(pre, h, t.data, z, rest);
    HeaderRoundTrip(pre, t.kind, n, t.data + z + rest);
    SkipStep(schema, data, |data|, vals, |pre|, Header(t.kind, n), |pre| + |h|);
  }

  lemma SkipStep(schema: Schema, data: seq<byte>, len: nat, vals: map<string, seq<byte>>, current: nat, header: Header,
                 at: nat)
    requires schema.Complete() && current < len && HeaderAt(data, current) == (Some(header), at)
    requires header.length > 0 && header.kind !in schema.names
    ensures ParseFrom(schema, data, len, vals, current) == ParseFrom(schema, data, len, vals, at + header.length)
  {
    hide HeaderAt;
  }

  /** An unknown type with one byte of padding in front of a known one, whose value is not found. */
  lemma UnknownHidesNext()
    ensures var schema := Schema(map[1 := "node"], map["node" := -1]);
            var message: seq<byte> := BuildStringTlv(9, [65]) + BuildStringTlv(1, [66]);
            && schema.Complete() && message == [9, 1, 65, 0, 1, 1, 66, 0]
            && ParseFrom(schema, message, 8, map["node" := []], 0) == Parsed(map["node" := []], 8)
  {
    var schema := Schema(map[1 := "node"], map["node" := -1]);
    var message: seq<byte> := [9, 1, 65, 0, 1, 1, 66, 0];
    var vals: map<string, seq<byte>> := map["node" := []];
    assert HeaderAt(message, 0) == (Some(Header(9, 1)), 2);
    assert HeaderAt(message, 3) == (Some(Header(0, 1)), 5);
    assert HeaderAt(message, 6) == (None, 8);
    assert ParseFrom(schema, message, 8, vals, 6) == Parsed(vals, 8);
    assert ParseFrom(schema, message, 8, vals, 3) == Parsed(vals, 8);
  }

  function BuildAll(ts: seq<StringTlv>): seq<byte> {
    if ts == [] then [] else BuildStringTlv(ts[0].kind, ts[0].data) + BuildAll(ts[1..])
  }

  function SetAll(schema: Schema, ts: seq<StringTlv>, vals: map<string, seq<byte>>): map<string, seq<byte>>
    requires forall k :: 0 <= k < |ts| ==> ts[k].kind in schema.names
  {
    if ts == [] then vals else SetAll(schema, ts[1..], vals[schema.names[ts[0].kind] := ts[0].data])
  }

  lemma {:induction false} ParseAll(schema: Schema, pre: seq<byte>, ts: seq<StringTlv>, vals: map<string, seq<byte>>)
    requires AllSendable(schema, ts)
    ensures var data := pre + BuildAll(ts);
            ParseFrom(schema, data, |data|, vals, |pre|) == Parsed(SetAll(schema, ts, vals), |data|)
    decreases ts
  {
    hide BuildStringTlv, HeaderAt, ParseValue;
    if ts == [] {
      assert pre + BuildAll(ts) == pre;
    } else {
      var b := BuildStringTlv(ts[0].kind, ts[0].data);
      OneTlv(schema, pre, ts[0], BuildAll(ts[1..]), vals);
      ParseAll(schema, pre + b, ts[1..], vals[schema.names[ts[0].kind] := ts[0].data]);
      assert pre + BuildAll(ts) == pre + b + BuildAll(ts[1..]);
    }
  }

  /** Main result: parsing the concatenation of string TLVs gives back all values and ends
      exactly at the end of the message. */
  lemma {:induction false} ParseUndoesBuild(schema: Schema, ts: seq<StringTlv>, vals: map<string, seq<byte>>)
    requires AllSendable(schema, ts)
    ensures ParseFrom(schema, BuildAll(ts), |BuildAll(ts)|, vals, 0) == Parsed(SetAll(schema, ts, vals), |BuildAll(ts)|)
  {
    ParseAll(schema, [], ts, vals);
    assert [] + BuildAll(ts) == BuildAll(ts);
  }

  /** With distinct names every value sent is the value found. */
  lemma {:induction false} EachValueFound(schema: Schema, ts: seq<StringTlv>, vals: map<string, seq<byte>>, k: nat)
    requires k < |ts| && forall i :: 0 <= i < |ts| ==> ts[i].kind in schema.names
    requires forall i, j :: 0 <= i < j < |ts| ==> schema.names[ts[i].kind] != schema.names[ts[j].kind]
    ensures schema.names[ts[k].kind] in SetAll(schema, ts, vals)
    ensures SetAll(schema, ts, vals)[schema.names[ts[k].kind]] == ts[k].data
    decreases ts
  {
    var vals' := vals[schema.names[ts[0].kind] := ts[0].data];
    var rest := ts[1..];
    assert forall i :: 0 <= i < |rest| ==> rest[i] == ts[i + 1];
    if k == 0 {
      OthersKeep(schema, rest, vals', schema.names[ts[0].kind]);
    } else {
      EachValueFound(schema, rest, vals', k - 1);
    }
  }

  lemma {:induction false} OthersKeep(schema: Schema, ts: seq<StringTlv>, vals: map<string, seq<byte>>, name: string)
    requires name in vals
    requires forall i :: 0 <= i < |ts| ==> ts[i].kind in schema.names && schema.names[ts[i].kind] != name
    ensures name in SetAll(schema, ts, vals) && SetAll(schema, ts, vals)[name] == vals[name]
    decreases ts
  {
    if ts != [] {
      assert forall i :: 0 <= i < |ts[1..]| ==> ts[1..][i] == ts[i + 1];
      OthersKeep(schema, ts[1..], vals[schema.names[ts[0].kind] := ts[0].data], name);
    }
  }

  /** The default already says that the string is empty. */
  predicate EmptyByDefault(schema: Schema, t: StringTlv, vals: map<string, seq<byte>>)
    requires t.kind in schema.names
  {
    t.data == [] && schema.names[t.kind] in vals && vals[schema.names[t.kind]] == []
  }

  /** Whatever the default values, a single TLV comes back and the parser ends where it ends
      exactly when it is sendable, or empty where the default is the empty string anyway: empty
      data is not sent at all, 65536 bytes give a header that says zero, more are cut off, and
      type 6 is padded twice. */
  lemma SingleExactIff(schema: Schema, t: StringTlv, vals: map<string, seq<byte>>)
    requires StringKind(schema, t.kind)
    ensures var b, name := BuildStringTlv(t.kind, t.data), schema.names[t.kind];
            ParseFrom(schema, b, |b|, vals, 0) == Parsed(vals[name := t.data], |b|)
            <==> Sendable(t) || EmptyByDefault(schema, t, vals)
  {
    var b, name := BuildStringTlv(t.kind, t.data), schema.names[t.kind];
    if 1 <= |t.data| <= 65535 {
      OneTlv(schema, [], t, [], vals);
      assert [] + b + [] == b;
    } else if |t.data| > 65535 {
      assert b[0] == t.kind && b[1] == 0 && b[2] == 0 && b[3] == 0;
      assert ParseFrom(schema, b, |b|, vals, 0).end != |b|;
    } else {
      assert b == [];
      assert ParseFrom(schema, b, |b|, vals, 0) == Parsed(vals, 0);
      SameDefault(vals, name, t.data);
    }
  }

  lemma SameDefault(vals: map<string, seq<byte>>, name: string, data: seq<byte>)
    ensures vals == vals[name := data] <==> name in vals && vals[name] == data
  {
    if vals == vals[name := data] {
      assert name in vals[name := data];
    }
  }
}
