/** The reversible path under which local storage stages a key (internal/cache/local.go:
    localStagingPath, localStagingKey): the key in unpadded base64url (section 5 of RFC 4648), cut into
    chunks, between a reserved directory and a marker. */
module Staging {
  import opened Wrappers
  import opened StoragePath

  const MARKER := "~"
  const CHUNK := 120

  // ---------------------------------------------------------------- base64url

  function Symbol(n: int): char
    requires 0 <= n < 64
  {
    if n < 26 then 'A' + n as char
    else if n < 52 then 'a' + (n - 26) as char
    else if n < 62 then '0' + (n - 52) as char
    else if n == 62 then '-' else '_'
  }

  function Value(c: char): Option<int> {
    if 'A' <= c <= 'Z' then Some(c as int - 'A' as int)
    else if 'a' <= c <= 'z' then Some(c as int - 'a' as int + 26)
    else if '0' <= c <= '9' then Some(c as int - '0' as int + 52)
    else if c == '-' then Some(62)
    else if c == '_' then Some(63)
    else None
  }

  predicate IsSymbol(c: char) {
    Value(c).Some?
  }

  predicate AllSymbols(s: string) {
    forall i | 0 <= i < |s| :: IsSymbol(s[i])
  }

  function Encode(s: string): string
    requires IsBytes(s)
  {
    if s == "" then ""
    else
      var a := s[0] as int;
      if |s| == 1 then [Symbol(a / 4), Symbol(a % 4 * 16)]
      else
        var b := s[1] as int;
        if |s| == 2 then [Symbol(a / 4), Symbol(a % 4 * 16 + b / 16), Symbol(b % 16 * 4)]
        else
          var c := s[2] as int;
          [Symbol(a / 4), Symbol(a % 4 * 16 + b / 16), Symbol(b % 16 * 4 + c / 64), Symbol(c % 64)] + Encode(s[3..])
  }

  /** The decoder leaves line breaks out, and bits that a shortened last group does not use. */
  function WithoutBreaks(s: string): string {
    if s == "" then ""
    else (if s[0] == '\r' || s[0] == '\n' then "" else [s[0]]) + WithoutBreaks(s[1..])
  }

  /** The three bytes of four symbol values, each of one byte. */
  function First(w: int, x: int): (byte: int)
    ensures 0 <= byte < 256
  {
    (w * 4 + x / 16) % 256
  }

  function Second(x: int, y: int): (byte: int)
    ensures 0 <= byte < 256
  {
    (x % 16 * 16 + y / 4) % 256
  }

  function Third(y: int, z: int): (byte: int)
    ensures 0 <= byte < 256
  {
    (y % 4 * 64 + z) % 256
  }

  function DecodeGroups(s: string): Option<string> {
    if s == "" then Some("")
    else if |s| == 1 || Value(s[0]).None? || Value(s[1]).None? then None
    else
      var w, x := Value(s[0]).value, Value(s[1]).value;
      var first := First(w, x);
      if |s| == 2 then Some([first as char])
      else if Value(s[2]).None? then None
      else
        var y := Value(s[2]).value;
        var second := Second(x, y);
        if |s| == 3 then Some([first as char, second as char])
        else if Value(s[3]).None? then None
        else
          var third := Third(y, Value(s[3]).value);
          Prepend([first as char, second as char, third as char], DecodeGroups(s[4..]))
  }

  function Decode(s: string): Option<string> {
    DecodeGroups(WithoutBreaks(s))
  }

  lemma SymbolValue(n: int)
    requires 0 <= n < 64
    ensures Value(Symbol(n)) == Some(n)
  {
  }

  lemma {:induction false} EncodedSymbols(s: string)
    requires IsBytes(s)
    ensures AllSymbols(Encode(s)) && (Encode(s) == "" <==> s == "")
  {
    if |s| >= 3 {
      EncodedSymbols(s[3..]);
    }
  }

  lemma {:induction false} SymbolsHaveNoBreaks(s: string)
    requires AllSymbols(s)
    ensures WithoutBreaks(s) == s
  {
    if s != "" {
      SymbolsHaveNoBreaks(s[1..]);
    }
  }

  lemma PartsOf16(hi: int, lo: int)
    requires 0 <= lo < 16
    ensures (hi * 16 + lo) / 16 == hi && (hi * 16 + lo) % 16 == lo
  {
  }

  lemma PartsOf4(hi: int, lo: int)
    requires 0 <= lo < 4
    ensures (hi * 4 + lo) / 4 == hi && (hi * 4 + lo) % 4 == lo
  {
  }

  lemma Rejoined(n: int, d: int)
    requires d > 0
    ensures n % d + d * (n / d) == n
  {
  }

  /** Three bytes survive their four symbols. */
  lemma FirstComesBack(a: int, b: int)
    requires 0 <= a < 256 && 0 <= b < 256
    ensures First(a / 4, a % 4 * 16 + b / 16) == a
  {
    PartsOf16(a % 4, b / 16);
    Rejoined(a, 4);
  }

  lemma SecondComesBack(a: int, b: int, c: int)
    requires 0 <= a < 256 && 0 <= b < 256 && 0 <= c < 256
    ensures Second(a % 4 * 16 + b / 16, b % 16 * 4 + c / 64) == b
  {
    PartsOf16(a % 4, b / 16);
    PartsOf4(b % 16, c / 64);
    Rejoined(b, 16);
  }

  lemma ThirdComesBack(b: int, c: int)
    requires 0 <= b < 256 && 0 <= c < 256
    ensures Third(b % 16 * 4 + c / 64, c % 64) == c
  {
    PartsOf4(b % 16, c / 64);
    Rejoined(c, 64);
  }

  lemma SymbolsAreSmall(a: int, b: int, c: int)
    requires 0 <= a < 256 && 0 <= b < 256 && 0 <= c < 256
    ensures 0 <= a / 4 < 64 && 0 <= a % 4 * 16 + b / 16 < 64 && 0 <= b % 16 * 4 + c / 64 < 64 && 0 <= c % 64 < 64
  {
  }

  lemma EncodedGroup(s: string, a: int, b: int, c: int)
    requires IsBytes(s) && s != "" && a == s[0] as int
    requires b == (if |s| > 1 then s[1] as int else 0) && c == (if |s| > 2 then s[2] as int else 0)
    ensures var e := Encode(s);
            |e| >= 2 && e[0] == Symbol(a / 4) && e[1] == Symbol(a % 4 * 16 + b / 16) &&
            (|s| >= 2 ==> |e| >= 3 && e[2] == Symbol(b % 16 * 4 + c / 64)) &&
            (|s| >= 3 ==> |e| >= 4 && e[3] == Symbol(c % 64) && e[4..] == Encode(s[3..])) &&
            (|s| == 1 ==> |e| == 2) && (|s| == 2 ==> |e| == 3)
  {
    if |s| == 1 {
      assert b / 16 == 0;
    } else if |s| == 2 {
      assert c / 64 == 0;
    }
  }

  lemma GroupSymbols(s: string)
    requires IsBytes(s) && s != ""
    ensures var a := s[0] as int;
            var b := if |s| > 1 then s[1] as int else 0;
            var c := if |s| > 2 then s[2] as int else 0;
            var e := Encode(s);
            |e| >= 2 && Value(e[0]) == Some(a / 4) && Value(e[1]) == Some(a % 4 * 16 + b / 16) &&
            (|s| >= 2 ==> |e| >= 3 && Value(e[2]) == Some(b % 16 * 4 + c / 64)) &&
            (|s| >= 3 ==> |e| >= 4 && Value(e[3]) == Some(c % 64) && e[4..] == Encode(s[3..])) &&
            (|s| == 1 ==> |e| == 2) && (|s| == 2 ==> |e| == 3)
  {
    var a := s[0] as int;
    var b := if |s| > 1 then s[1] as int else 0;
    var c := if |s| > 2 then s[2] as int else 0;
    SymbolsAreSmall(a, b, c);
    EncodedGroup(s, a, b, c);
    SymbolValue(a / 4);
    SymbolValue(a % 4 * 16 + b / 16);
    SymbolValue(b % 16 * 4 + c / 64);
    SymbolValue(c % 64);
  }

  /** The same, for symbol values known only to be those of the group. */
  lemma ValuesComeBack(a: int, b: int, c: int, w: int, x: int, y: int, z: int)
    requires 0 <= a < 256 && 0 <= b < 256 && 0 <= c < 256
    requires w == a / 4 && x == a % 4 * 16 + b / 16 && y == b % 16 * 4 + c / 64 && z == c % 64
    ensures First(w, x) == a && Second(x, y) == b && Third(y, z) == c
  {
    FirstComesBack(a, b);
    SecondComesBack(a, b, c);
    ThirdComesBack(b, c);
  }

  lemma FullGroup(s: string)
    requires IsBytes(s) && |s| >= 3
    ensures DecodeGroups(Encode(s)) == Prepend([s[0], s[1], s[2]], DecodeGroups(Encode(s[3..])))
  {
    GroupSymbols(s);
    var e := Encode(s);
    ValuesComeBack(s[0] as int, s[1] as int, s[2] as int, Value(e[0]).value, Value(e[1]).value, Value(e[2]).value, Value(e[3]).value);
  }

  lemma OneByte(s: string)
    requires IsBytes(s) && |s| == 1
    ensures DecodeGroups(Encode(s)) == Some(s)
  {
    var a := s[0] as int;
    var e := Encode(s);
    SymbolValue(a / 4);
    SymbolValue(a % 4 * 16);
    LastByte(a, Value(e[0]).value, Value(e[1]).value);
    assert s == [s[0]];
  }

  lemma LastByte(a: int, w: int, x: int)
    requires 0 <= a < 256 && w == a / 4 && x == a % 4 * 16
    ensures First(w, x) == a
  {
  }

  lemma TwoBytes(s: string)
    requires IsBytes(s) && |s| == 2
    ensures DecodeGroups(Encode(s)) == Some(s)
  {
    GroupSymbols(s);
    var e := Encode(s);
    ValuesComeBack(s[0] as int, s[1] as int, 0, Value(e[0]).value, Value(e[1]).value, Value(e[2]).value, 0);
    assert s == [s[0], s[1]];
  }

  lemma {:induction false} GroupsComeBack(s: string)
    requires IsBytes(s)
    ensures DecodeGroups(Encode(s)) == Some(s)
  {
    if |s| >= 3 {
      FullGroup(s);
      GroupsComeBack(s[3..]);
      assert s == [s[0], s[1], s[2]] + s[3..];
    } else if |s| == 2 {
      TwoBytes(s);
    } else if |s| == 1 {
      OneByte(s);
    }
  }

  lemma DecodeOfEncode(s: string)
    requires IsBytes(s)
    ensures Decode(Encode(s)) == Some(s)
  {
    EncodedSymbols(s);
    SymbolsHaveNoBreaks(Encode(s));
    GroupsComeBack(s);
  }

  // ---------------------------------------------------------------- chunks

  function Chunks(encoded: string): seq<string> {
    if |encoded| <= CHUNK then [encoded] else [encoded[..CHUNK]] + Chunks(encoded[CHUNK..])
  }

  function Concat(parts: seq<string>): string {
    if parts == [] then "" else parts[0] + Concat(parts[1..])
  }

  predicate ChunkLengths(chunks: seq<string>) {
    forall i | 0 <= i < |chunks| :: 0 < |chunks[i]| <= CHUNK && (i < |chunks| - 1 ==> |chunks[i]| == CHUNK)
  }

  lemma {:induction false} ChunksOf(encoded: string)
    requires AllSymbols(encoded) && encoded != ""
    ensures var chunks := Chunks(encoded);
            chunks != [] && Concat(chunks) == encoded && ChunkLengths(chunks) && forall p | p in chunks :: AllSymbols(p)
  {
    if |encoded| > CHUNK {
      ChunksOf(encoded[CHUNK..]);
      assert encoded == encoded[..CHUNK] + encoded[CHUNK..];
    } else {
      assert [encoded][1..] == [];
    }
  }

  // ---------------------------------------------------------------- the codec

  function PathParts(key: string): seq<string>
    requires IsBytes(key)
  {
    [STAGING_NAMESPACE] + Chunks(Encode(key)) + [MARKER]
  }

  function StagingPath(key: string, isUtf8: string -> bool): Option<string>
    requires IsBytes(key)
  {
    if ValidKey(key, isUtf8) then Some(Join(PathParts(key))) else None
  }

  predicate HasSuffix(s: string, suffix: string) {
    |suffix| <= |s| && s[|s| - |suffix|..] == suffix
  }

  function TrimPrefix(s: string, prefix: string): string {
    if HasPrefix(s, prefix) then s[|prefix|..] else s
  }

  function TrimSuffix(s: string, suffix: string): string {
    if HasSuffix(s, suffix) then s[..|s| - |suffix|] else s
  }

  function StagingKey(path: string, isUtf8: string -> bool): Option<string> {
    if !HasPrefix(path, STAGING_NAMESPACE + "/") || !HasSuffix(path, "/" + MARKER) then None
    else
      var chunks := Split(TrimSuffix(TrimPrefix(path, STAGING_NAMESPACE + "/"), "/" + MARKER));
      if !ChunkLengths(chunks) then None
      else
        var decoded := Decode(Concat(chunks));
        if decoded.None? || !IsBytes(decoded.value) || !ValidKey(decoded.value, isUtf8) then None
        else if StagingPath(decoded.value, isUtf8) == Some(path) then decoded else None
  }

  /** localStagingPath */
  method MakeStagingPath(key: string, isUtf8: string -> bool) returns (path: Option<string>)
    requires IsBytes(key)
    ensures path == StagingPath(key, isUtf8)
  {
    if !ValidKey(key, isUtf8) {
      return None;
    }
    var encoded := Encode(key);
    var parts := [STAGING_NAMESPACE];
    while |encoded| > CHUNK
      invariant parts + Chunks(encoded) == [STAGING_NAMESPACE] + Chunks(Encode(key))
    {
      parts := parts + [encoded[..CHUNK]];
      encoded := encoded[CHUNK..];
    }
    parts := parts + [encoded, MARKER];
    assert parts == PathParts(key);
    return Some(Join(parts));
  }

  lemma {:induction false} JoinConcat(a: seq<string>, b: seq<string>)
    requires a != [] && b != []
    ensures Join(a + b) == Join(a) + "/" + Join(b)
  {
    if |a| == 1 {
      assert (a + b)[1..] == b;
    } else {
      assert (a + b)[1..] == a[1..] + b;
      JoinConcat(a[1..], b);
    }
  }

  lemma {:induction false} SplitConcat(a: string, b: string)
    ensures Split(a + "/" + b) == Split(a) + Split(b)
  {
    if a == "" {
      assert a + "/" + b == "/" + b;
      assert ("/" + b)[1..] == b;
    } else {
      var whole := a + "/" + b;
      assert whole[0] == a[0] && whole[1..] == a[1..] + "/" + b;
      SplitConcat(a[1..], b);
    }
  }

  lemma SymbolsHaveNoSlash(s: string)
    requires AllSymbols(s)
    ensures '/' !in s && s != MARKER
  {
    assert !IsSymbol('/') && !IsSymbol(MARKER[0]);
  }

  lemma PartsHaveNoSlash(key: string)
    requires IsBytes(key) && key != ""
    ensures var parts := PathParts(key);
            |parts| >= 3 && (forall p | p in parts :: '/' !in p) &&
            forall i | 0 < i < |parts| - 1 :: parts[i] != MARKER
  {
    EncodedSymbols(key);
    ChunksOf(Encode(key));
    var chunks, parts := Chunks(Encode(key)), PathParts(key);
    forall i | 0 < i < |parts| - 1
      ensures '/' !in parts[i] && parts[i] != MARKER
    {
      assert parts[i] == chunks[i - 1] && chunks[i - 1] in chunks;
      SymbolsHaveNoSlash(chunks[i - 1]);
    }
    assert parts[0] == STAGING_NAMESPACE && parts[|parts| - 1] == MARKER;
  }

  /** What is between the directory and the marker of a staging path. */
  lemma MiddleOfPath(key: string, path: string)
    requires IsBytes(key) && key != "" && path == Join(PathParts(key))
    ensures HasPrefix(path, STAGING_NAMESPACE + "/") && HasSuffix(path, "/" + MARKER)
    ensures Split(TrimSuffix(TrimPrefix(path, STAGING_NAMESPACE + "/"), "/" + MARKER)) == Chunks(Encode(key))
  {
    var chunks := Chunks(Encode(key));
    EncodedSymbols(key);
    ChunksOf(Encode(key));
    var middle := Join(chunks);
    JoinConcat([STAGING_NAMESPACE], chunks);
    JoinConcat([STAGING_NAMESPACE] + chunks, [MARKER]);
    PathText(STAGING_NAMESPACE, middle, MARKER, path);
    forall i | 0 <= i < |chunks|
      ensures '/' !in chunks[i]
    {
      assert chunks[i] in chunks;
      SymbolsHaveNoSlash(chunks[i]);
    }
    SplitOfJoin(chunks);
  }

  lemma PathText(name: string, middle: string, marker: string, path: string)
    requires path == name + "/" + middle + "/" + marker
    ensures HasPrefix(path, name + "/") && HasSuffix(path, "/" + marker)
    ensures TrimSuffix(TrimPrefix(path, name + "/"), "/" + marker) == middle
  {
    var rest := middle + "/" + marker;
    assert path == (name + "/") + rest;
    assert path[|name + "/"|..] == rest;
    assert rest == middle + ("/" + marker);
    assert path == (name + "/" + middle) + ("/" + marker);
  }

  /** The codec is an exact partial inverse: a path yields a key exactly if it is that key's path. */
  lemma CodecIsExact(path: string, key: string, isUtf8: string -> bool)
    requires IsBytes(key)
    ensures StagingKey(path, isUtf8) == Some(key) <==> StagingPath(key, isUtf8) == Some(path)
  {
    if StagingPath(key, isUtf8) == Some(path) {
      MiddleOfPath(key, path);
      EncodedSymbols(key);
      ChunksOf(Encode(key));
      DecodeOfEncode(key);
    }
  }

  /** Two keys never share a staging path, and no staging file lies in the way of another: no path is a
      directory on the way to a different one. */
  lemma PathsAreDisjoint(a: string, b: string, isUtf8: string -> bool)
    requires IsBytes(a) && IsBytes(b) && ValidKey(a, isUtf8) && ValidKey(b, isUtf8)
    ensures StagingPath(a, isUtf8) == StagingPath(b, isUtf8) <==> a == b
    ensures !HasPrefix(StagingPath(b, isUtf8).value, StagingPath(a, isUtf8).value + "/")
  {
    var p, q := StagingPath(a, isUtf8).value, StagingPath(b, isUtf8).value;
    CodecIsExact(p, a, isUtf8);
    CodecIsExact(p, b, isUtf8);
    NotAbove(a, b, p, q);
  }

  lemma NotAbove(a: string, b: string, p: string, q: string)
    requires IsBytes(a) && IsBytes(b) && a != "" && b != "" && p == Join(PathParts(a)) && q == Join(PathParts(b))
    ensures !HasPrefix(q, p + "/")
  {
    PartsHaveNoSlash(a);
    PartsHaveNoSlash(b);
    SplitOfJoin(PathParts(a));
    SplitOfJoin(PathParts(b));
    if HasPrefix(q, p + "/") {
      var rest := q[|p + "/"|..];
      assert q == p + "/" + rest;
      SplitConcat(p, rest);
      NothingBelowMarker(PathParts(a), PathParts(b), Split(rest));
    }
  }

  lemma NothingBelowMarker(above: seq<string>, parts: seq<string>, below: seq<string>)
    requires |above| >= 3 && above[|above| - 1] == MARKER && below != []
    requires forall i | 0 < i < |parts| - 1 :: parts[i] != MARKER
    ensures parts != above + below
  {
    assert (above + below)[|above| - 1] == MARKER && |above + below| > |above|;
  }
}
