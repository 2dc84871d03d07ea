/** The path under which local storage keeps a cache key (internal/cache/storagepath.go and the key
    validation of internal/cache/local.go).

    Text is a sequence of bytes, written as characters below 256.  SHA-256 in hexadecimal is a
    parameter: any function into 64 lower-case hexadecimal digits; that it has no collision is
    required only of the over-long segments of the keys that are compared.  Whether text is UTF-8 is a
    parameter too. */
module StoragePath {
  import opened Wrappers

  const MAX_SEGMENT := 200
  const STAGING_NAMESPACE := ".depsilo-staging-v1"

  predicate IsBytes(s: string) {
    forall i | 0 <= i < |s| :: s[i] as int < 256
  }

  // ---------------------------------------------------------------- splitting and joining at slashes

  function Split(s: string): (parts: seq<string>)
    ensures parts != []
    ensures forall p | p in parts :: '/' !in p && (IsBytes(s) ==> IsBytes(p))
  {
    if s == "" then [""]
    else
      var rest := Split(s[1..]);
      assert forall i | 0 <= i < |rest| :: rest[i] in rest;
      if s[0] == '/' then [""] + rest else [[s[0]] + rest[0]] + rest[1..]
  }

  function Join(parts: seq<string>): string {
    if parts == [] then "" else if |parts| == 1 then parts[0] else parts[0] + "/" + Join(parts[1..])
  }

  lemma {:induction false} JoinOfSplit(s: string)
    ensures Join(Split(s)) == s
  {
    if s != "" {
      var rest := Split(s[1..]);
      JoinOfSplit(s[1..]);
      if s[0] == '/' {
        assert ([""] + rest)[1..] == rest;
      } else {
        assert ([[s[0]] + rest[0]] + rest[1..])[1..] == rest[1..];
      }
    }
  }

  lemma {:induction false} SplitOfPart(part: string)
    requires '/' !in part
    ensures Split(part) == [part]
  {
    if part != "" {
      assert part == [part[0]] + part[1..] && part[0] in part;
      SplitOfPart(part[1..]);
    }
  }

  lemma {:induction false} SplitOfConcat(part: string, s: string)
    requires '/' !in part
    ensures Split(part + "/" + s) == [part] + Split(s)
  {
    if part == "" {
      assert part + "/" + s == "/" + s;
      assert ("/" + s)[1..] == s;
    } else {
      assert part == [part[0]] + part[1..] && part[0] in part;
      SplitOfConcat(part[1..], s);
      var whole := part + "/" + s;
      assert whole[1..] == part[1..] + "/" + s && whole[0] == part[0];
      assert ([part[1..]] + Split(s))[1..] == Split(s);
    }
  }

  lemma {:induction false} SplitOfJoin(parts: seq<string>)
    requires parts != [] && forall p | p in parts :: '/' !in p
    ensures Split(Join(parts)) == parts
  {
    if |parts| == 1 {
      SplitOfPart(parts[0]);
    } else {
      SplitOfJoin(parts[1..]);
      SplitOfConcat(parts[0], Join(parts[1..]));
    }
  }

  // ---------------------------------------------------------------- one segment

  predicate ByteSafe(c: char) {
    'a' <= c <= 'z' || '0' <= c <= '9' || c == '.' || c == '-' || c == '_'
  }

  predicate SegmentSafe(segment: string) {
    segment != "" && AllSafe(segment)
  }

  predicate AllSafe(s: string) {
    forall i | 0 <= i < |s| :: ByteSafe(s[i])
  }

  function HexDigit(n: int): char
    requires 0 <= n < 16
  {
    if n < 10 then '0' + n as char else 'A' + (n - 10) as char
  }

  /** storageEscapeValue: only the digits that escaping writes. */
  function EscapeValue(c: char): Option<int> {
    if '0' <= c <= '9' then Some(c as int - '0' as int)
    else if 'A' <= c <= 'F' then Some(c as int - 'A' as int + 10)
    else None
  }

  function EscapeByte(c: char): string
    requires c as int < 256
  {
    if ByteSafe(c) then [c] else ['%', HexDigit(c as int / 16), HexDigit(c as int % 16)]
  }

  function Escape(segment: string): string
    requires IsBytes(segment)
  {
    if segment == "" then "" else EscapeByte(segment[0]) + Escape(segment[1..])
  }

  function Decode(s: string): Option<string> {
    if s == "" then Some("")
    else if s[0] != '%' then
      var rest := Decode(s[1..]);
      if ByteSafe(s[0]) && rest.Some? then Some([s[0]] + rest.value) else None
    else if |s| < 3 || EscapeValue(s[1]).None? || EscapeValue(s[2]).None? then None
    else
      var rest := Decode(s[3..]);
      if rest.Some? then Some([(EscapeValue(s[1]).value * 16 + EscapeValue(s[2]).value) as char] + rest.value) else None
  }

  function Unescape(segment: string): Option<string> {
    if '%' !in segment then (if segment != "" && segment[0] == '~' then None else Some(segment)) else Decode(segment)
  }

  /** A segment too long to be escaped is replaced by its digest. */
  predicate Overflows(segment: string)
    requires IsBytes(segment)
  {
    !SegmentSafe(segment) && |Escape(segment)| > MAX_SEGMENT
  }

  function SegmentPath(segment: string, sha: string -> string): string
    requires IsBytes(segment)
  {
    if SegmentSafe(segment) then segment
    else if |Escape(segment)| <= MAX_SEGMENT then Escape(segment)
    else "~" + sha(segment)
  }

  ghost predicate HexDigest(sha: string -> string) {
    forall s :: |sha(s)| == 64 && forall c | c in sha(s) :: '0' <= c <= '9' || 'a' <= c <= 'f'
  }

  /** The digests of two over-long segments differ when the segments do. */
  ghost predicate NoCollision(sha: string -> string, a: string, b: string)
    requires IsBytes(a) && IsBytes(b)
  {
    Overflows(a) && Overflows(b) && sha(a) == sha(b) ==> a == b
  }

  lemma {:induction false} SafeEscapesToItself(segment: string)
    requires IsBytes(segment) && AllSafe(segment)
    ensures Escape(segment) == segment
  {
    if segment != "" {
      SafeEscapesToItself(segment[1..]);
    }
  }

  predicate EscapeChar(c: char) {
    ByteSafe(c) || c == '%' || 'A' <= c <= 'F'
  }

  lemma {:induction false} EscapedText(segment: string)
    requires IsBytes(segment)
    ensures forall i | 0 <= i < |Escape(segment)| :: EscapeChar(Escape(segment)[i])
    ensures '%' !in Escape(segment) ==> AllSafe(segment)
    ensures Escape(segment) == "" <==> segment == ""
    ensures Escape(segment) == "" || ByteSafe(Escape(segment)[0]) || Escape(segment)[0] == '%'
  {
    if segment != "" {
      EscapedText(segment[1..]);
      var head, tail := EscapeByte(segment[0]), Escape(segment[1..]);
      assert head + tail == Escape(segment);
      if !ByteSafe(segment[0]) {
        assert Escape(segment)[0] == '%' && '%' in Escape(segment);
      } else if '%' !in Escape(segment) {
        assert '%' in tail ==> '%' in head + tail;
        assert segment == [segment[0]] + segment[1..];
      }
    }
  }

  lemma {:induction false} DecodeOfEscape(segment: string)
    requires IsBytes(segment)
    ensures Decode(Escape(segment)) == Some(segment)
  {
    if segment != "" {
      DecodeOfEscape(segment[1..]);
      var c, tail, s := segment[0], Escape(segment[1..]), Escape(segment);
      assert segment == [c] + segment[1..];
      if ByteSafe(c) {
        assert s[0] == c && s[1..] == tail;
      } else {
        EscapedDigit(c as int / 16);
        EscapedDigit(c as int % 16);
        assert s[..3] == EscapeByte(c) && s[0] == '%' && s[3..] == tail;
      }
    }
  }

  lemma EscapedDigit(n: int)
    requires 0 <= n < 16
    ensures EscapeValue(HexDigit(n)) == Some(n)
  {
  }

  // ---------------------------------------------------------------- after case folding

  function LowerChar(c: char): char {
    if 'A' <= c <= 'Z' then c - 'A' + 'a' else c
  }

  function Lower(s: string): (l: string)
    ensures |l| == |s| && forall i | 0 <= i < |s| :: l[i] == LowerChar(s[i])
  {
    seq(|s|, i requires 0 <= i < |s| => LowerChar(s[i]))
  }

  function FoldedValue(c: char): int {
    if '0' <= c <= '9' then c as int - '0' as int else c as int - 'a' as int + 10
  }

  /** Reads an escaped segment back from its folded form: the case of hexadecimal digits does not
      matter, because they always follow a percent sign. */
  function DecodeFolded(s: string): string {
    if s == "" then ""
    else if s[0] != '%' || |s| < 3 then [s[0]] + DecodeFolded(s[1..])
    else
      var value := FoldedValue(s[1]) * 16 + FoldedValue(s[2]);
      [if 0 <= value < 256 then value as char else s[0]] + DecodeFolded(s[3..])
  }

  lemma FoldedDigit(n: int)
    requires 0 <= n < 16
    ensures FoldedValue(LowerChar(HexDigit(n))) == n
  {
  }

  lemma {:induction false} DecodeOfFoldedEscape(segment: string)
    requires IsBytes(segment)
    ensures DecodeFolded(Lower(Escape(segment))) == segment
  {
    if segment != "" {
      DecodeOfFoldedEscape(segment[1..]);
      var c, tail := segment[0], Escape(segment[1..]);
      var s := Lower(Escape(segment));
      assert segment == [c] + segment[1..];
      if ByteSafe(c) {
        assert Escape(segment) == [c] + tail;
        assert s[0] == c && s[1..] == Lower(tail);
      } else {
        var high, low := c as int / 16, c as int % 16;
        assert Escape(segment) == ['%', HexDigit(high), HexDigit(low)] + tail;
        assert s[0] == '%' && s[1] == LowerChar(HexDigit(high)) && s[2] == LowerChar(HexDigit(low)) && s[3..] == Lower(tail);
        FoldedDigit(high);
        FoldedDigit(low);
      }
    }
  }

  /** Two segments never share a path, not even on a root that folds case. */
  lemma SegmentPathIsInjective(a: string, b: string, sha: string -> string)
    requires IsBytes(a) && IsBytes(b) && HexDigest(sha) && NoCollision(sha, a, b)
    requires Lower(SegmentPath(a, sha)) == Lower(SegmentPath(b, sha))
    ensures a == b
  {
    SegmentPathText(a, sha);
    SegmentPathText(b, sha);
    var x, y := SegmentPath(a, sha), SegmentPath(b, sha);
    assert Overflows(a) ==> Lower(x)[0] == '~';
    assert Overflows(b) ==> Lower(y)[0] == '~';
    if !Overflows(a) && !Overflows(b) {
      DecodeOfFoldedEscape(a);
      DecodeOfFoldedEscape(b);
    } else {
      DigestSurvivesFolding(sha(a), x);
      DigestSurvivesFolding(sha(b), y);
    }
  }

  lemma DigestSurvivesFolding(digest: string, path: string)
    requires forall c | c in digest :: '0' <= c <= '9' || 'a' <= c <= 'f'
    ensures path == "~" + digest ==> Lower(path)[1..] == digest && |path| == |digest| + 1
  {
    if path == "~" + digest {
      forall i | 0 <= i < |digest|
        ensures Lower(path)[i + 1] == digest[i]
      {
        assert path[i + 1] == digest[i] && digest[i] in digest;
      }
    }
  }

  /** A digest segment starts with a mark that no other segment path starts with, folded or not; every
      other segment path is the escaped segment. */
  lemma SegmentPathText(segment: string, sha: string -> string)
    requires IsBytes(segment) && HexDigest(sha)
    ensures var path := SegmentPath(segment, sha);
            '/' !in path && '/' !in Lower(path) &&
            (Overflows(segment) ==> path == "~" + sha(segment) && '%' !in path) &&
            (!Overflows(segment) ==> path == Escape(segment) && (path == "" || (path[0] != '~' && Lower(path)[0] != '~')))
  {
    if Overflows(segment) {
      DigestText(sha(segment));
    } else {
      EscapedText(segment);
      if SegmentSafe(segment) {
        SafeEscapesToItself(segment);
      }
      NoSlash(Escape(segment));
    }
  }

  lemma DigestText(digest: string)
    requires forall c | c in digest :: '0' <= c <= '9' || 'a' <= c <= 'f'
    ensures var path := "~" + digest; '/' !in path && '/' !in Lower(path) && '%' !in path
  {
    var path := "~" + digest;
    forall i | 0 < i < |path|
      ensures '0' <= path[i] <= '9' || 'a' <= path[i] <= 'f'
    {
      assert path[i] == digest[i - 1] && digest[i - 1] in digest;
    }
  }

  lemma NoSlash(escaped: string)
    requires forall i | 0 <= i < |escaped| :: EscapeChar(escaped[i])
    ensures '/' !in escaped && '/' !in Lower(escaped)
  {
  }

  // ---------------------------------------------------------------- whole keys

  function SegmentPaths(segments: seq<string>, sha: string -> string): seq<string>
    requires forall s | s in segments :: IsBytes(s)
  {
    seq(|segments|, i requires 0 <= i < |segments| => SegmentPath(segments[i], sha))
  }

  function PathOf(key: string, foldsCase: bool, sha: string -> string): string
    requires IsBytes(key)
  {
    if !foldsCase || key == "" then key else Join(SegmentPaths(Split(key), sha))
  }

  function UnescapeAll(segments: seq<string>): Option<seq<string>> {
    if segments == [] then Some([])
    else
      var first, rest := Unescape(segments[0]), UnescapeAll(segments[1..]);
      if first.Some? && rest.Some? then Some([first.value] + rest.value) else None
  }

  function KeyFromPath(path: string, foldsCase: bool): Option<string> {
    if !foldsCase || path == "" then Some(path)
    else
      var segments := UnescapeAll(Split(path));
      if segments.Some? then Some(Join(segments.value)) else None
  }

  function LowerAll(parts: seq<string>): seq<string> {
    seq(|parts|, i requires 0 <= i < |parts| => Lower(parts[i]))
  }

  lemma {:induction false} LowerOfJoin(parts: seq<string>)
    requires parts != []
    ensures Lower(Join(parts)) == Join(LowerAll(parts))
  {
    if |parts| > 1 {
      LowerOfJoin(parts[1..]);
      assert LowerAll(parts)[1..] == LowerAll(parts[1..]);
      assert Lower(parts[0] + "/" + Join(parts[1..])) == Lower(parts[0]) + "/" + Lower(Join(parts[1..]));
    }
  }

  /** The path is the join of the segments' paths for the empty key as well. */
  lemma PathIsJoin(key: string, sha: string -> string)
    requires IsBytes(key)
    ensures PathOf(key, true, sha) == Join(SegmentPaths(Split(key), sha))
  {
  }

  lemma SplitOfPath(key: string, sha: string -> string)
    requires IsBytes(key) && HexDigest(sha)
    ensures Split(PathOf(key, true, sha)) == SegmentPaths(Split(key), sha)
    ensures Split(Lower(PathOf(key, true, sha))) == LowerAll(SegmentPaths(Split(key), sha))
  {
    var paths := SegmentPaths(Split(key), sha);
    PathIsJoin(key, sha);
    forall i | 0 <= i < |paths|
      ensures '/' !in paths[i] && '/' !in Lower(paths[i])
    {
      SegmentPathText(Split(key)[i], sha);
    }
    SplitOfJoin(paths);
    LowerOfJoin(paths);
    SplitOfJoin(LowerAll(paths));
  }

  ghost predicate NoCollisions(sha: string -> string, a: string, b: string)
    requires IsBytes(a) && IsBytes(b)
  {
    forall x, y | x in Split(a) && y in Split(b) :: NoCollision(sha, x, y)
  }

  /** On a root that folds case two keys never share a file. */
  lemma PathIsInjective(a: string, b: string, sha: string -> string)
    requires IsBytes(a) && IsBytes(b) && HexDigest(sha) && NoCollisions(sha, a, b)
    requires Lower(PathOf(a, true, sha)) == Lower(PathOf(b, true, sha))
    ensures a == b
  {
    SplitOfPath(a, sha);
    SplitOfPath(b, sha);
    var x, y := Split(a), Split(b);
    var p, q := LowerAll(SegmentPaths(x, sha)), LowerAll(SegmentPaths(y, sha));
    assert |x| == |p| && |y| == |q|;
    forall i | 0 <= i < |x|
      ensures x[i] == y[i]
    {
      assert p[i] == q[i] && NoCollision(sha, x[i], y[i]);
      SegmentPathIsInjective(x[i], y[i], sha);
    }
    assert x == y;
    JoinOfSplit(a);
    JoinOfSplit(b);
  }

  lemma UnescapeOfSegmentPath(segment: string, sha: string -> string)
    requires IsBytes(segment) && HexDigest(sha)
    ensures Unescape(SegmentPath(segment, sha)) == if Overflows(segment) then None else Some(segment)
  {
    SegmentPathText(segment, sha);
    EscapedText(segment);
    DecodeOfEscape(segment);
  }

  predicate AnyOverflows(segments: seq<string>)
    requires forall s | s in segments :: IsBytes(s)
  {
    exists s | s in segments :: Overflows(s)
  }

  lemma {:induction false} UnescapeOfPaths(segments: seq<string>, sha: string -> string)
    requires (forall s | s in segments :: IsBytes(s)) && HexDigest(sha)
    ensures UnescapeAll(SegmentPaths(segments, sha)) == if AnyOverflows(segments) then None else Some(segments)
  {
    if segments != [] {
      UnescapeOfSegmentPath(segments[0], sha);
      UnescapeOfPaths(segments[1..], sha);
      assert SegmentPaths(segments, sha)[1..] == SegmentPaths(segments[1..], sha);
      OverflowsSomewhere(segments);
      assert segments == [segments[0]] + segments[1..];
    }
  }

  lemma OverflowsSomewhere(segments: seq<string>)
    requires segments != [] && forall s | s in segments :: IsBytes(s)
    ensures AnyOverflows(segments) <==> Overflows(segments[0]) || AnyOverflows(segments[1..])
  {
    assert segments == [segments[0]] + segments[1..];
    assert forall s | s in segments[1..] :: s in segments;
  }

  /** The key comes back from its path exactly when no segment was replaced by a digest; otherwise
      reading it back says so. */
  lemma KeyComesBack(key: string, foldsCase: bool, sha: string -> string)
    requires IsBytes(key) && HexDigest(sha)
    ensures KeyFromPath(PathOf(key, foldsCase, sha), foldsCase)
         == if foldsCase && AnyOverflows(Split(key)) then None else Some(key)
  {
    if foldsCase {
      SplitOfPath(key, sha);
      UnescapeOfPaths(Split(key), sha);
      JoinOfSplit(key);
      EmptyPath(key, sha);
    }
  }

  lemma EmptyPath(key: string, sha: string -> string)
    requires IsBytes(key) && HexDigest(sha)
    ensures PathOf(key, true, sha) == "" <==> key == ""
  {
    SplitOfPath(key, sha);
    if PathOf(key, true, sha) == "" {
      assert SegmentPaths(Split(key), sha) == [""];
      SegmentPathText(Split(key)[0], sha);
      DecodeOfEscape(Split(key)[0]);
      JoinOfSplit(key);
    }
  }

  // ---------------------------------------------------------------- the loops

  /** escapeStorageSegment */
  method EscapeSegment(segment: string) returns (escaped: string)
    requires IsBytes(segment)
    ensures escaped == Escape(segment)
  {
    escaped := "";
    assert segment[0..] == segment;
    for index := 0 to |segment|
      invariant escaped + Escape(segment[index..]) == Escape(segment)
    {
      var c := segment[index];
      EscapeNext(segment, index);
      ghost var next := escaped + EscapeByte(c);
      assert next + Escape(segment[index + 1..]) == escaped + (EscapeByte(c) + Escape(segment[index + 1..]));
      if ByteSafe(c) {
        escaped := escaped + [c];
      } else {
        escaped := escaped + ['%'];
        escaped := escaped + [HexDigit(c as int / 16)];
        escaped := escaped + [HexDigit(c as int % 16)];
      }
      assert escaped == next;
    }
  }

  lemma EscapeNext(segment: string, index: nat)
    requires IsBytes(segment) && index < |segment|
    ensures Escape(segment[index..]) == EscapeByte(segment[index]) + Escape(segment[index + 1..])
  {
    assert segment[index..][1..] == segment[index + 1..];
  }

  /** unescapeStorageSegment */
  method UnescapeSegment(segment: string) returns (key: Option<string>)
    ensures key == Unescape(segment)
  {
    if '%' !in segment {
      return if |segment| > 0 && segment[0] == '~' then None else Some(segment);
    }
    var built, index := "", 0;
    assert segment[0..] == segment;
    PrependNothing(Decode(segment));
    while index < |segment|
      invariant 0 <= index <= |segment|
      invariant Decode(segment) == Prepend(built, Decode(segment[index..]))
    {
      var c, rest := segment[index], segment[index..];
      if c != '%' {
        assert rest[1..] == segment[index + 1..];
        if !ByteSafe(c) {
          return None;
        }
        PrependTwice(built, [c], Decode(segment[index + 1..]));
        built, index := built + [c], index + 1;
      } else {
        if index + 2 >= |segment| {
          return None;
        }
        assert rest[3..] == segment[index + 3..];
        var high, low := EscapeValue(segment[index + 1]), EscapeValue(segment[index + 2]);
        if high.None? || low.None? {
          return None;
        }
        var decoded := (high.value * 16 + low.value) as char;
        PrependTwice(built, [decoded], Decode(segment[index + 3..]));
        built, index := built + [decoded], index + 3;
      }
    }
    assert built + "" == built;
    return Some(built);
  }

  function Prepend(head: string, tail: Option<string>): Option<string> {
    if tail.Some? then Some(head + tail.value) else None
  }

  lemma PrependNothing(s: Option<string>)
    ensures Prepend("", s) == s
  {
    if s.Some? {
      assert "" + s.value == s.value;
    }
  }

  lemma PrependTwice(a: string, b: string, s: Option<string>)
    ensures Prepend(a, Prepend(b, s)) == Prepend(a + b, s)
  {
    if s.Some? {
      assert a + (b + s.value) == a + b + s.value;
    }
  }

  /** storagePath */
  method StoredPath(key: string, foldsCase: bool, sha: string -> string) returns (path: string)
    requires IsBytes(key)
    ensures path == PathOf(key, foldsCase, sha)
  {
    if !foldsCase || key == "" {
      return key;
    }
    var segments := Split(key);
    var paths: seq<string> := [];
    for index := 0 to |segments|
      invariant |paths| == index && forall i | 0 <= i < index :: paths[i] == SegmentPath(segments[i], sha)
    {
      var p := segments[index];
      if !SegmentSafe(p) {
        var escaped := EscapeSegment(p);
        p := if |escaped| <= MAX_SEGMENT then escaped else "~" + sha(p);
      }
      paths := paths + [p];
    }
    assert paths == SegmentPaths(segments, sha);
    return Join(paths);
  }

  // ---------------------------------------------------------------- valid keys

  predicate IsLetter(c: char) {
    'a' <= c <= 'z' || 'A' <= c <= 'Z'
  }

  predicate HasPrefix(s: string, prefix: string) {
    |prefix| <= |s| && s[..|prefix|] == prefix
  }

  /** fs.ValidPath, but for the root: UTF-8 without empty, "." or ".." elements. */
  predicate ValidPath(key: string, isUtf8: string -> bool) {
    isUtf8(key) && forall p | p in Split(key) :: p != "" && p != "." && p != ".."
  }

  /** validateStorageKey, for a key that must name an object */
  predicate ValidKey(key: string, isUtf8: string -> bool) {
    key != "" && key != "." && key != STAGING_NAMESPACE && !HasPrefix(key, STAGING_NAMESPACE + "/") && '\\' !in key &&
    !(|key| >= 2 && IsLetter(key[0]) && key[1] == ':') && ValidPath(key, isUtf8)
  }

  lemma FirstSegment(key: string, name: string)
    requires '/' !in name
    ensures Split(key)[0] == name <==> key == name || HasPrefix(key, name + "/")
  {
    var parts := Split(key);
    JoinOfSplit(key);
    if parts[0] == name && |parts| > 1 {
      assert key == name + "/" + Join(parts[1..]);
      assert key[..|name + "/"|] == name + "/";
    }
    if key == name {
      SplitOfPart(name);
    }
    if HasPrefix(key, name + "/") {
      var rest := key[|name + "/"|..];
      assert key == name + "/" + rest;
      SplitOfConcat(name, rest);
    }
  }

  /** No valid key is stored inside the reserved staging namespace, nor under a name that folds to it. */
  lemma NoKeyReachesStaging(key: string, sha: string -> string, isUtf8: string -> bool, foldsCase: bool)
    requires IsBytes(key) && HexDigest(sha) && ValidKey(key, isUtf8)
    ensures var path := PathOf(key, foldsCase, sha);
            path != STAGING_NAMESPACE && !HasPrefix(path, STAGING_NAMESPACE + "/") &&
            (foldsCase ==> Lower(path) != STAGING_NAMESPACE && !HasPrefix(Lower(path), STAGING_NAMESPACE + "/"))
  {
    if foldsCase {
      var path := PathOf(key, true, sha);
      SplitOfPath(key, sha);
      FirstSegment(key, STAGING_NAMESPACE);
      FirstSegment(path, STAGING_NAMESPACE);
      FirstSegment(Lower(path), STAGING_NAMESPACE);
      StagingNameIsItsOwnPath(Split(key)[0], sha);
    }
  }

  lemma StagingNameIsItsOwnPath(segment: string, sha: string -> string)
    requires IsBytes(segment) && HexDigest(sha) && segment != STAGING_NAMESPACE
    ensures SegmentPath(segment, sha) != STAGING_NAMESPACE && Lower(SegmentPath(segment, sha)) != STAGING_NAMESPACE
  {
    SafeNameIsItsOwnPath(segment, STAGING_NAMESPACE, sha);
  }

  lemma SafeNameIsItsOwnPath(segment: string, name: string, sha: string -> string)
    requires IsBytes(segment) && IsBytes(name) && HexDigest(sha) && SegmentSafe(name) && segment != name
    ensures SegmentPath(segment, sha) != name && Lower(SegmentPath(segment, sha)) != name
  {
    assert Lower(name) == name;
    if Lower(SegmentPath(segment, sha)) == name || SegmentPath(segment, sha) == name {
      SegmentPathIsInjective(segment, name, sha);
    }
  }
}
