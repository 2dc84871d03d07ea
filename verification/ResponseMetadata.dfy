/** The bounded, replay-safe response headers that are stored with a cache entry
    (internal/cache/response_metadata.go).

    A header set that only has allowed names is a list of values for each name of the persistence
    order; a name without values is absent.  Canonical names, the names a Connection value nominates,
    the check of a Link value, and the length and round trip of a JSON string are parameters. */
module ResponseMetadata {
  import opened Wrappers

  const MAX_VALUE := 8 * 1024
  const MAX_VALUES := 16
  const MAX_ENCODED := 32 * 1024

  /** responseMetadataHeaderOrder, which has the names of the allow-list */
  const ORDER: seq<string> := [
    "Etag", "Last-Modified", "Content-Encoding", "Content-Language", "Content-Range", "Link", "X-Repo-Commit",
    "X-Linked-Etag", "X-Linked-Size", "Docker-Content-Digest", "Digest", "X-Checksum-Sha256", "X-Checksum-Sha512",
    "X-Checksum-Sha1", "X-Checksum-Md5", "Accept-Ranges", "Content-Disposition"]

  /** The positions of that order, by name: how a header set is walked and encoded. */
  const BY_NAME: seq<nat> := [15, 16, 2, 3, 4, 10, 9, 0, 1, 5, 14, 13, 11, 12, 7, 8, 6]

  /** The names, and what the standard library contributes. */
  datatype Setup = Setup(
    order: seq<string>,
    byName: seq<nat>,
    canonical: string -> string,
    nominated: string -> seq<string>,
    linkStaysLocal: string -> bool,
    jsonLength: string -> nat,
    jsonRoundTrip: string -> string)

  predicate Standard(lib: Setup) {
    lib.order == ORDER && lib.byName == BY_NAME
  }

  datatype Field = Field(name: string, values: seq<string>)

  /** The header as the program walks it: its fields in the order of their raw names. */
  type Header = seq<Field>

  type Lists = seq<seq<string>>

  function Nothing(lib: Setup): Lists {
    seq(|lib.order|, i => [])
  }

  // ---------------------------------------------------------------- candidates

  predicate Nominated(h: Header, lib: Setup, name: string) {
    exists f, v, n | f in h && v in f.values && n in lib.nominated(v) ::
      lib.canonical(f.name) == "Connection" && n != "" && n == name
  }

  predicate Admissible(i: nat, v: string, lib: Setup)
    requires i < |lib.order|
  {
    |v| <= MAX_VALUE && '\r' !in v && '\n' !in v && (lib.order[i] == "Link" ==> lib.linkStaysLocal(v))
  }

  function AdmissibleOf(i: nat, values: seq<string>, lib: Setup): seq<string>
    requires i < |lib.order|
  {
    if values == [] then []
    else (if Admissible(i, values[0], lib) then [values[0]] else []) + AdmissibleOf(i, values[1..], lib)
  }

  /** The values of one name, in the order in which they are met. */
  function ValuesOf(h: Header, i: nat, lib: Setup): seq<string>
    requires i < |lib.order|
  {
    if h == [] then []
    else (if lib.canonical(h[0].name) == lib.order[i] then AdmissibleOf(i, h[0].values, lib) else []) + ValuesOf(h[1..], i, lib)
  }

  function FirstFew(values: seq<string>): seq<string> {
    if |values| > MAX_VALUES then values[..MAX_VALUES] else values
  }

  function Candidates(h: Header, lib: Setup): Lists {
    seq(|lib.order|, i requires 0 <= i < |lib.order| =>
      if Nominated(h, lib, lib.order[i]) then [] else FirstFew(ValuesOf(h, i, lib)))
  }

  // ---------------------------------------------------------------- the length of the encoding

  /** The length of a JSON array of strings. */
  function ArrayLength(values: seq<string>, lib: Setup): nat {
    2 + Strings(values, lib) + (if |values| > 1 then |values| - 1 else 0)
  }

  function Strings(values: seq<string>, lib: Setup): nat {
    if values == [] then 0 else lib.jsonLength(values[0]) + Strings(values[1..], lib)
  }

  /** The members of the JSON object, each with a comma after it. */
  function Members(lists: Lists, names: seq<string>, lib: Setup): nat
    requires |lists| == |names|
  {
    if lists == [] then 0
    else (if lists[0] == [] then 0 else lib.jsonLength(names[0]) + 1 + ArrayLength(lists[0], lib) + 1)
         + Members(lists[1..], names[1..], lib)
  }

  predicate IsEmpty(lists: Lists) {
    forall i | 0 <= i < |lists| :: lists[i] == []
  }

  /** The length of the JSON object: braces and members, without the last comma. */
  function EncodedLength(lists: Lists, lib: Setup): int
    requires |lists| == |lib.order|
  {
    2 + Members(lists, lib.order, lib) - (if IsEmpty(lists) then 0 else 1)
  }

  /** responseMetadataEncodedSizeAfterAppend */
  function SizeAfterAppend(lists: Lists, i: nat, value: string, current: int, lib: Setup): int
    requires |lists| == |lib.order| && i < |lib.order|
  {
    if lists[i] != [] then current + 1 + lib.jsonLength(value)
    else current + (if IsEmpty(lists) then 0 else 1) + lib.jsonLength(lib.order[i]) + 1 + 1 + lib.jsonLength(value) + 1
  }

  lemma {:induction false} StringsAppend(values: seq<string>, v: string, lib: Setup)
    ensures Strings(values + [v], lib) == Strings(values, lib) + lib.jsonLength(v)
  {
    if values == [] {
      assert [v][1..] == [];
    } else {
      assert (values + [v])[1..] == values[1..] + [v];
      StringsAppend(values[1..], v, lib);
    }
  }

  lemma {:induction false} MembersAppend(lists: Lists, names: seq<string>, i: nat, v: string, lib: Setup)
    requires |lists| == |names| && i < |lists|
    ensures Members(lists[i := lists[i] + [v]], names, lib)
         == Members(lists, names, lib) + lib.jsonLength(v) +
            (if lists[i] == [] then lib.jsonLength(names[i]) + 4 else 1)
  {
    StringsAppend(lists[i], v, lib);
    if i == 0 {
      assert lists[0 := lists[0] + [v]][1..] == lists[1..];
    } else {
      assert lists[i := lists[i] + [v]][1..] == lists[1..][i - 1 := lists[i] + [v]];
      MembersAppend(lists[1..], names[1..], i - 1, v, lib);
    }
  }

  /** The running size is exact: it is always the length of the encoding. */
  lemma SizeIsExact(lists: Lists, i: nat, v: string, lib: Setup)
    requires |lists| == |lib.order| && i < |lib.order|
    ensures SizeAfterAppend(lists, i, v, EncodedLength(lists, lib), lib) == EncodedLength(lists[i := lists[i] + [v]], lib)
  {
    MembersAppend(lists, lib.order, i, v, lib);
    assert lists[i := lists[i] + [v]][i] != [];
  }

  /** Fewer values of each name encode to no more. */
  lemma {:induction false} StringsOfPrefix(values: seq<string>, n: nat, lib: Setup)
    requires n <= |values|
    ensures Strings(values[..n], lib) <= Strings(values, lib)
  {
    if n > 0 {
      assert values[..n][1..] == values[1..][..n - 1];
      StringsOfPrefix(values[1..], n - 1, lib);
    }
  }

  predicate PrefixWise(less: Lists, more: Lists) {
    |less| == |more| && forall i | 0 <= i < |less| :: less[i] <= more[i]
  }

  lemma {:induction false} MembersOfPrefixes(less: Lists, more: Lists, names: seq<string>, lib: Setup)
    requires PrefixWise(less, more) && |more| == |names|
    ensures Members(less, names, lib) <= Members(more, names, lib)
  {
    if less != [] {
      MembersOfPrefixes(less[1..], more[1..], names[1..], lib);
      StringsOfPrefix(more[0], |less[0]|, lib);
      assert less[0] == more[0][..|less[0]|];
    }
  }

  lemma SizeOfPrefixes(less: Lists, more: Lists, lib: Setup)
    requires PrefixWise(less, more) && |more| == |lib.order|
    ensures EncodedLength(less, lib) <= EncodedLength(more, lib)
  {
    MembersOfPrefixes(less, more, lib.order, lib);
    if IsEmpty(less) && !IsEmpty(more) {
      MembersPositive(more, lib.order, lib);
      MembersOfNothing(less, lib.order, lib);
    }
  }

  lemma {:induction false} MembersPositive(lists: Lists, names: seq<string>, lib: Setup)
    requires |lists| == |names| && !IsEmpty(lists)
    ensures Members(lists, names, lib) >= 1
  {
    if lists[0] == [] {
      var i :| 0 <= i < |lists| && lists[i] != [];
      assert lists[1..][i - 1] != [];
      MembersPositive(lists[1..], names[1..], lib);
    } else {
      assert Members(lists, names, lib) >= 1 + Members(lists[1..], names[1..], lib);
    }
  }

  lemma {:induction false} MembersOfNothing(lists: Lists, names: seq<string>, lib: Setup)
    requires |lists| == |names| && IsEmpty(lists)
    ensures Members(lists, names, lib) == 0
  {
    if lists != [] {
      MembersOfNothing(lists[1..], names[1..], lib);
    }
  }

  // ---------------------------------------------------------------- admission

  /** One value of each name before the next of any: the value is admitted if it still fits. */
  function Admit(c: Lists, safe: Lists, v: nat, i: nat, lib: Setup): Lists
    requires |c| == |safe| == |lib.order| && v <= MAX_VALUES && i <= |lib.order|
    decreases MAX_VALUES - v, |lib.order| - i
  {
    if v == MAX_VALUES then safe
    else if i == |lib.order| then Admit(c, safe, v + 1, 0, lib)
    else if v < |c[i]| && SizeAfterAppend(safe, i, c[i][v], EncodedLength(safe, lib), lib) <= MAX_ENCODED then
      Admit(c, safe[i := safe[i] + [c[i][v]]], v, i + 1, lib)
    else Admit(c, safe, v, i + 1, lib)
  }

  function Sanitized(h: Header, lib: Setup): Lists {
    Admit(Candidates(h, lib), Nothing(lib), 0, 0, lib)
  }

  /** What admission keeps: the encoding stays within its bound, and a name has only candidates. */
  ghost predicate Bounded(c: Lists, safe: Lists, lib: Setup) {
    |c| == |safe| == |lib.order| && EncodedLength(safe, lib) <= MAX_ENCODED &&
    forall i | 0 <= i < |safe| :: Drawn(safe[i], c[i])
  }

  predicate Drawn(values: seq<string>, c: seq<string>) {
    forall v | v in values :: v in c
  }

  lemma {:induction false} AdmitStaysBounded(c: Lists, safe: Lists, v: nat, i: nat, lib: Setup)
    requires Bounded(c, safe, lib) && v <= MAX_VALUES && i <= |lib.order| && (v == MAX_VALUES ==> i == 0)
    requires forall j | 0 <= j < |safe| :: |safe[j]| <= (if j < i then v + 1 else v)
    ensures var s := Admit(c, safe, v, i, lib); Bounded(c, s, lib) && forall j | 0 <= j < |s| :: |s[j]| <= MAX_VALUES
    decreases MAX_VALUES - v, |lib.order| - i
  {
    if v < MAX_VALUES {
      if i == |lib.order| {
        AdmitStaysBounded(c, safe, v + 1, 0, lib);
      } else if v < |c[i]| && SizeAfterAppend(safe, i, c[i][v], EncodedLength(safe, lib), lib) <= MAX_ENCODED {
        SizeIsExact(safe, i, c[i][v], lib);
        AdmitStaysBounded(c, safe[i := safe[i] + [c[i][v]]], v, i + 1, lib);
      } else {
        AdmitStaysBounded(c, safe, v, i + 1, lib);
      }
    }
  }

  /** The lists as they are after so many rounds when everything fits. */
  function Partial(s: Lists, v: nat, i: nat): Lists {
    seq(|s|, j requires 0 <= j < |s| => Head(s[j], if j < i then v + 1 else v))
  }

  function Head(values: seq<string>, n: nat): seq<string> {
    if n < |values| then values[..n] else values
  }

  /** When all candidates fit together, all are admitted: the order of admission does not matter. */
  lemma {:induction false} EverythingFits(s: Lists, v: nat, i: nat, lib: Setup)
    requires |s| == |lib.order| && EncodedLength(s, lib) <= MAX_ENCODED && v <= MAX_VALUES && i <= |lib.order|
    requires forall j | 0 <= j < |s| :: |s[j]| <= MAX_VALUES
    ensures Admit(s, Partial(s, v, i), v, i, lib) == s
    decreases MAX_VALUES - v, |lib.order| - i
  {
    var p := Partial(s, v, i);
    if v == MAX_VALUES {
      assert p == s;
    } else if i == |lib.order| {
      assert p == Partial(s, v + 1, 0);
      EverythingFits(s, v + 1, 0, lib);
    } else {
      var q := Partial(s, v, i + 1);
      if v < |s[i]| {
        assert p[i] == s[i][..v] && q[i] == s[i][..v + 1] == p[i] + [s[i][v]];
        assert q == p[i := p[i] + [s[i][v]]];
        SizeIsExact(p, i, s[i][v], lib);
        SizeOfPrefixes(q, s, lib);
      } else {
        assert q == p;
      }
      EverythingFits(s, v, i + 1, lib);
    }
  }

  /** Each list is no longer than its counterpart, and no heavier. */
  predicate Lighter(less: Lists, more: Lists, lib: Setup) {
    |less| == |more| &&
    forall i | 0 <= i < |less| :: |less[i]| <= |more[i]| && Strings(less[i], lib) <= Strings(more[i], lib)
  }

  lemma {:induction false} MembersOfLighter(less: Lists, more: Lists, names: seq<string>, lib: Setup)
    requires Lighter(less, more, lib) && |more| == |names|
    ensures Members(less, names, lib) <= Members(more, names, lib)
  {
    if less != [] {
      assert Lighter(less[1..], more[1..], lib) by {
        assert forall i | 0 <= i < |less| - 1 :: less[1..][i] == less[i + 1] && more[1..][i] == more[i + 1];
      }
      MembersOfLighter(less[1..], more[1..], names[1..], lib);
      assert less[0] != [] ==> more[0] != [] && ArrayLength(less[0], lib) <= ArrayLength(more[0], lib);
    }
  }

  lemma SizeOfLighter(less: Lists, more: Lists, lib: Setup)
    requires Lighter(less, more, lib) && |more| == |lib.order| && !IsEmpty(less)
    ensures EncodedLength(less, lib) <= EncodedLength(more, lib)
  {
    MembersOfLighter(less, more, lib.order, lib);
    var i :| 0 <= i < |less| && less[i] != [];
    assert more[i] != [];
  }

  lemma NextPartial(c: Lists, v: nat, i: nat, lib: Setup)
    requires |c| == |lib.order| && i < |c|
    ensures var p, q := Partial(c, v, i), Partial(c, v, i + 1);
            (forall r | r > v :: PrefixWise(q, Partial(c, r, 0))) &&
            if v < |c[i]| then
              q == p[i := p[i] + [c[i][v]]] &&
              SizeAfterAppend(p, i, c[i][v], EncodedLength(p, lib), lib) == EncodedLength(q, lib)
            else q == p
  {
    var p, q := Partial(c, v, i), Partial(c, v, i + 1);
    if v < |c[i]| {
      assert p[i] == c[i][..v] && q[i] == c[i][..v + 1] == p[i] + [c[i][v]];
      assert q == p[i := p[i] + [c[i][v]]];
      SizeIsExact(p, i, c[i][v], lib);
    } else {
      assert q == p;
    }
  }

  lemma {:induction false} RoundsFit(c: Lists, r: nat, v: nat, i: nat, lib: Setup)
    requires |c| == |lib.order| && EncodedLength(Partial(c, r, 0), lib) <= MAX_ENCODED && i <= |lib.order|
    requires v <= r <= MAX_VALUES && (v == r ==> i == 0)
    ensures PrefixWise(Partial(c, r, 0), Admit(c, Partial(c, v, i), v, i, lib))
    decreases MAX_VALUES - v, |lib.order| - i
  {
    var p, all := Partial(c, v, i), Partial(c, r, 0);
    if v == r {
      AdmitOnlyAdds(c, p, v, i, lib);
    } else if i == |lib.order| {
      assert p == Partial(c, v + 1, 0);
      RoundsFit(c, r, v + 1, 0, lib);
    } else {
      NextPartial(c, v, i, lib);
      SizeOfPrefixes(Partial(c, v, i + 1), all, lib);
      RoundsFit(c, r, v, i + 1, lib);
    }
  }

  /** Later values of one name never crowd out earlier ones of another: if the first r candidates of every
      name fit together, each name keeps these, in their order, whatever else there is. */
  lemma EarlierRoundsFirst(h: Header, lib: Setup, r: nat)
    requires r <= MAX_VALUES && EncodedLength(Partial(Candidates(h, lib), r, 0), lib) <= MAX_ENCODED
    ensures PrefixWise(Partial(Candidates(h, lib), r, 0), Sanitized(h, lib))
  {
    var c := Candidates(h, lib);
    assert Partial(c, 0, 0) == Nothing(lib);
    RoundsFit(c, r, 0, 0, lib);
  }

  /** What does not fit at one time does not fit later. */
  lemma StillTooMuch(less: Lists, more: Lists, i: nat, w: string, lib: Setup)
    requires PrefixWise(less, more) && |more| == |lib.order| && i < |more|
    ensures EncodedLength(less[i := less[i] + [w]], lib) <= EncodedLength(more[i := more[i] + [w]], lib)
  {
    var a, b := less[i := less[i] + [w]], more[i := more[i] + [w]];
    forall j | 0 <= j < |a|
      ensures |a[j]| <= |b[j]| && Strings(a[j], lib) <= Strings(b[j], lib)
    {
      StringsOfPrefix(more[j], |less[j]|, lib);
      assert less[j] == more[j][..|less[j]|];
      StringsAppend(less[i], w, lib);
      StringsAppend(more[i], w, lib);
    }
    assert a[i] != [];
    SizeOfLighter(a, b, lib);
  }

  lemma {:induction false} AdmitOnlyAdds(c: Lists, safe: Lists, v: nat, i: nat, lib: Setup)
    requires |c| == |safe| == |lib.order| && v <= MAX_VALUES && i <= |lib.order|
    ensures PrefixWise(safe, Admit(c, safe, v, i, lib))
    decreases MAX_VALUES - v, |lib.order| - i
  {
    if v < MAX_VALUES {
      if i == |lib.order| {
        AdmitOnlyAdds(c, safe, v + 1, 0, lib);
      } else if v < |c[i]| && SizeAfterAppend(safe, i, c[i][v], EncodedLength(safe, lib), lib) <= MAX_ENCODED {
        AdmitOnlyAdds(c, safe[i := safe[i] + [c[i][v]]], v, i + 1, lib);
        var next, s := safe[i := safe[i] + [c[i][v]]], Admit(c, safe[i := safe[i] + [c[i][v]]], v, i + 1, lib);
        assert forall j | 0 <= j < |safe| :: safe[j] <= next[j] <= s[j];
      } else {
        AdmitOnlyAdds(c, safe, v, i + 1, lib);
      }
    }
  }

  /** A candidate yet to be considered is admitted, or does not fit in the end. */
  lemma {:induction false} AdmittedOrTooMuch(c: Lists, safe: Lists, v: nat, i: nat, lib: Setup, n: nat, j: nat)
    requires |c| == |safe| == |lib.order| && v <= n < MAX_VALUES && i <= |lib.order|
    requires j < |c| && n < |c[j]| && (n == v ==> i <= j)
    ensures var s := Admit(c, safe, v, i, lib);
            |s| == |c| && (c[j][n] in s[j] || EncodedLength(s[j := s[j] + [c[j][n]]], lib) > MAX_ENCODED)
    decreases MAX_VALUES - v, |lib.order| - i
  {
    AdmitOnlyAdds(c, safe, v, i, lib);
    var s := Admit(c, safe, v, i, lib);
    if i == |lib.order| {
      AdmittedOrTooMuch(c, safe, v + 1, 0, lib, n, j);
    } else {
      var fits := v < |c[i]| && SizeAfterAppend(safe, i, c[i][v], EncodedLength(safe, lib), lib) <= MAX_ENCODED;
      var next := if fits then safe[i := safe[i] + [c[i][v]]] else safe;
      if v == n && i == j {
        SizeIsExact(safe, i, c[i][v], lib);
        AdmitOnlyAdds(c, next, v, i + 1, lib);
        if fits {
          assert c[j][n] in next[j] && next[j] <= s[j];
        } else {
          StillTooMuch(safe, s, j, c[j][n], lib);
        }
      } else {
        AdmittedOrTooMuch(c, next, v, i + 1, lib, n, j);
      }
    }
  }

  /** Nothing is left out that would still fit: a candidate whose value is not admitted would take the
      encoding over 32 KiB, added to what has been admitted. */
  lemma NothingMoreFits(h: Header, lib: Setup, j: nat, w: string)
    requires j < |lib.order| && w in Candidates(h, lib)[j]
    ensures var s := Sanitized(h, lib);
            |s| == |lib.order| && (w !in s[j] ==> EncodedLength(s[j := s[j] + [w]], lib) > 32 * 1024)
  {
    var c := Candidates(h, lib);
    var n :| 0 <= n < |c[j]| && c[j][n] == w;
    AdmittedOrTooMuch(c, Nothing(lib), 0, 0, lib, n, j);
  }

  // ---------------------------------------------------------------- sanitizing again

  predicate PositionsOf(positions: seq<nat>, n: nat) {
    forall j | 0 <= j < |positions| :: positions[j] < n
  }

  function FieldsAt(s: Lists, positions: seq<nat>, lib: Setup): Header
    requires |s| == |lib.order| && PositionsOf(positions, |s|)
  {
    if positions == [] then []
    else (if s[positions[0]] == [] then [] else [Field(lib.order[positions[0]], s[positions[0]])]) + FieldsAt(s, positions[1..], lib)
  }

  /** A header set as the header it is. */
  function FieldsOf(s: Lists, lib: Setup): Header
    requires |s| == |lib.order| && PositionsOf(lib.byName, |s|)
  {
    FieldsAt(s, lib.byName, lib)
  }

  predicate Distinct<T(==)>(items: seq<T>) {
    forall i, j | 0 <= i < j < |items| :: items[i] != items[j]
  }

  /** Allowed names are canonical as they are written, different, and not Connection; the positions by
      name are all the positions. */
  ghost predicate WellNamed(lib: Setup) {
    Distinct(lib.order) && "Connection" !in lib.order &&
    (forall i | 0 <= i < |lib.order| :: lib.canonical(lib.order[i]) == lib.order[i] && i in lib.byName) &&
    PositionsOf(lib.byName, |lib.order|) && Distinct(lib.byName)
  }

  lemma StandardIsWellNamed(lib: Setup)
    requires Standard(lib) && forall i | 0 <= i < |ORDER| :: lib.canonical(ORDER[i]) == ORDER[i]
    ensures WellNamed(lib)
  {
    EveryPosition();
    forall i | 0 <= i < |ORDER|
      ensures ORDER[i] != "Connection" && forall j | 0 <= j < |ORDER| && j != i :: ORDER[i] != ORDER[j]
    {
      NameText(i);
    }
  }

  lemma EveryPosition()
    ensures Distinct(BY_NAME) && PositionsOf(BY_NAME, |ORDER|) && forall i | 0 <= i < |ORDER| :: i in BY_NAME
  {
    assert BY_NAME[7] == 0 && BY_NAME[8] == 1 && BY_NAME[2] == 2 && BY_NAME[3] == 3 && BY_NAME[4] == 4 && BY_NAME[9] == 5;
    assert BY_NAME[16] == 6 && BY_NAME[14] == 7 && BY_NAME[15] == 8 && BY_NAME[6] == 9 && BY_NAME[5] == 10;
    assert BY_NAME[12] == 11 && BY_NAME[13] == 12 && BY_NAME[11] == 13 && BY_NAME[10] == 14 && BY_NAME[0] == 15 && BY_NAME[1] == 16;
  }

  lemma NameText(i: nat)
    requires i < |ORDER|
    ensures ORDER[i] != "Connection" && forall j | 0 <= j < |ORDER| && j != i :: ORDER[j] != ORDER[i]
  {
  }

  lemma {:induction false} ValuesOfFields(s: Lists, positions: seq<nat>, i: nat, lib: Setup)
    requires |s| == |lib.order| && i < |lib.order| && WellNamed(lib)
    requires PositionsOf(positions, |lib.order|)
    requires Distinct(positions)
    ensures ValuesOf(FieldsAt(s, positions, lib), i, lib) == if i in positions then AdmissibleOf(i, s[i], lib) else []
  {
    if positions != [] {
      var k := positions[0];
      ValuesOfFields(s, positions[1..], i, lib);
      assert positions == [k] + positions[1..];
      if s[k] != [] {
        var h := FieldsAt(s, positions, lib);
        assert h[0] == Field(lib.order[k], s[k]) && h[1..] == FieldsAt(s, positions[1..], lib);
      } else {
        assert FieldsAt(s, positions, lib) == FieldsAt(s, positions[1..], lib);
      }
    }
  }

  lemma {:induction false} FieldNames(s: Lists, positions: seq<nat>, lib: Setup)
    requires |s| == |lib.order| && PositionsOf(positions, |lib.order|)
    ensures forall f | f in FieldsAt(s, positions, lib) :: f.name in lib.order
  {
    if positions != [] {
      FieldNames(s, positions[1..], lib);
    }
  }

  lemma NothingNominated(s: Lists, lib: Setup, name: string)
    requires |s| == |lib.order| && WellNamed(lib)
    ensures !Nominated(FieldsOf(s, lib), lib, name)
  {
    FieldNames(s, lib.byName, lib);
    forall f | f in FieldsOf(s, lib)
      ensures lib.canonical(f.name) != "Connection"
    {
      var i :| 0 <= i < |lib.order| && lib.order[i] == f.name;
    }
  }

  lemma {:induction false} AdmissibleAll(i: nat, values: seq<string>, lib: Setup)
    requires i < |lib.order| && forall j | 0 <= j < |values| :: Admissible(i, values[j], lib)
    ensures AdmissibleOf(i, values, lib) == values
  {
    if values != [] {
      AdmissibleAll(i, values[1..], lib);
    }
  }

  lemma {:induction false} OnlyAdmissible(h: Header, i: nat, lib: Setup)
    requires i < |lib.order|
    ensures forall v | v in ValuesOf(h, i, lib) :: Admissible(i, v, lib)
  {
    if h != [] {
      OnlyAdmissible(h[1..], i, lib);
      FilteredValues(i, h[0].values, lib);
    }
  }

  lemma {:induction false} FilteredValues(i: nat, values: seq<string>, lib: Setup)
    requires i < |lib.order|
    ensures forall v | v in AdmissibleOf(i, values, lib) :: Admissible(i, v, lib)
  {
    if values != [] {
      FilteredValues(i, values[1..], lib);
    }
  }

  lemma NothingEncodes(lib: Setup)
    ensures EncodedLength(Nothing(lib), lib) == 2 && IsEmpty(Nothing(lib))
  {
    MembersOfNothing(Nothing(lib), lib.order, lib);
  }

  /** Which values are considered for a name: those of its fields that are at most 8 KiB long, hold no line
      break, and stay on the host where that is asked for. */
  lemma {:induction false} ValuesAreExact(h: Header, i: nat, lib: Setup, v: string)
    requires i < |lib.order|
    ensures v in ValuesOf(h, i, lib) <==>
              exists f | f in h :: lib.canonical(f.name) == lib.order[i] && v in f.values && |v| <= 8 * 1024 &&
                '\r' !in v && '\n' !in v && (lib.order[i] == "Link" ==> lib.linkStaysLocal(v))
    decreases |h|
  {
    if h != [] {
      ValuesAreExact(h[1..], i, lib, v);
      AdmissibleValue(i, h[0].values, lib, v);
      assert h == [h[0]] + h[1..];
    }
  }

  lemma {:induction false} AdmissibleValue(i: nat, values: seq<string>, lib: Setup, v: string)
    requires i < |lib.order|
    ensures v in AdmissibleOf(i, values, lib) <==>
              v in values && |v| <= 8 * 1024 && '\r' !in v && '\n' !in v && (lib.order[i] == "Link" ==> lib.linkStaysLocal(v))
    decreases |values|
  {
    if values != [] {
      AdmissibleValue(i, values[1..], lib, v);
      assert values == [values[0]] + values[1..];
    }
  }

  /** The bound of the encoding holds of every header, so the encoder's own guard never fires. */
  lemma SanitizedFits(h: Header, lib: Setup)
    ensures var s := Sanitized(h, lib);
            Bounded(Candidates(h, lib), s, lib) && EncodedLength(s, lib) <= MAX_ENCODED &&
            forall i | 0 <= i < |s| :: |s[i]| <= MAX_VALUES && forall j | 0 <= j < |s[i]| :: Admissible(i, s[i][j], lib)
    ensures forall i, v | 0 <= i < |Sanitized(h, lib)| && v in Sanitized(h, lib)[i] ::
              |v| <= 8 * 1024 && (forall k | 0 <= k < |v| :: v[k] != '\r' && v[k] != '\n') &&
              (lib.order[i] == "Link" ==> lib.linkStaysLocal(v))
  {
    NothingEncodes(lib);
    var c := Candidates(h, lib);
    AdmitStaysBounded(c, Nothing(lib), 0, 0, lib);
    var s := Sanitized(h, lib);
    forall i, j | 0 <= i < |s| && 0 <= j < |s[i]|
      ensures Admissible(i, s[i][j], lib)
    {
      assert Drawn(s[i], c[i]) && s[i][j] in s[i];
      OnlyAdmissible(h, i, lib);
      assert s[i][j] in ValuesOf(h, i, lib);
    }
  }

  /** A header set whose values are admissible, few and small enough is its own set of candidates. */
  lemma OwnCandidates(s: Lists, lib: Setup)
    requires |s| == |lib.order| && WellNamed(lib)
    requires forall i | 0 <= i < |s| :: |s[i]| <= MAX_VALUES && forall j | 0 <= j < |s[i]| :: Admissible(i, s[i][j], lib)
    ensures Candidates(FieldsOf(s, lib), lib) == s
  {
    forall i | 0 <= i < |s|
      ensures Candidates(FieldsOf(s, lib), lib)[i] == s[i]
    {
      NothingNominated(s, lib, lib.order[i]);
      ValuesOfFields(s, lib.byName, i, lib);
      AdmissibleAll(i, s[i], lib);
      assert i in lib.byName;
    }
  }

  /** Sanitizing what has been sanitized changes nothing, although values that were skipped the first
      time move later values to earlier rounds. */
  lemma SanitizeIsIdempotent(h: Header, lib: Setup)
    requires WellNamed(lib)
    ensures |Sanitized(h, lib)| == |lib.order|
    ensures Sanitized(FieldsOf(Sanitized(h, lib), lib), lib) == Sanitized(h, lib)
  {
    var s := Sanitized(h, lib);
    SanitizedFits(h, lib);
    OwnCandidates(s, lib);
    assert Partial(s, 0, 0) == Nothing(lib);
    EverythingFits(s, 0, 0, lib);
  }

  // ---------------------------------------------------------------- the stored cell

  datatype Cell = EmptyCell | Json(header: Header, length: int) | Malformed(length: int)

  function Reread(h: Header, lib: Setup): Header {
    if h == [] then [] else [Field(h[0].name, RereadValues(h[0].values, lib))] + Reread(h[1..], lib)
  }

  function RereadValues(values: seq<string>, lib: Setup): seq<string> {
    if values == [] then [] else [lib.jsonRoundTrip(values[0])] + RereadValues(values[1..], lib)
  }

  /** encodeResponseMetadata; the cell holds what parsing its text gives back. */
  function Encode(h: Header, lib: Setup): Cell
    requires PositionsOf(lib.byName, |lib.order|)
  {
    var s := Sanitized(h, lib);
    SanitizedFits(h, lib);
    if IsEmpty(s) then EmptyCell
    else if EncodedLength(s, lib) > MAX_ENCODED then EmptyCell
    else Json(Reread(FieldsOf(s, lib), lib), EncodedLength(s, lib))
  }

  /** decodeResponseMetadata */
  function Decode(cell: Cell, lib: Setup): Lists {
    match cell
    case EmptyCell => Nothing(lib)
    case Malformed(_) => Nothing(lib)
    case Json(h, length) => if length > MAX_ENCODED then Nothing(lib) else Sanitized(h, lib)
  }

  /** JSON gives back the text it was given: valid UTF-8. */
  ghost predicate SurvivesJson(s: Lists, lib: Setup) {
    forall i | 0 <= i < |s| :: AllSurvive(s[i], lib)
  }

  predicate AllSurvive(values: seq<string>, lib: Setup) {
    forall i | 0 <= i < |values| :: lib.jsonRoundTrip(values[i]) == values[i]
  }

  lemma {:induction false} RereadSame(values: seq<string>, lib: Setup)
    requires AllSurvive(values, lib)
    ensures RereadValues(values, lib) == values
  {
    if values != [] {
      assert forall i | 0 <= i < |values[1..]| :: values[1..][i] == values[i + 1];
      RereadSame(values[1..], lib);
    }
  }

  lemma {:induction false} RereadFields(s: Lists, positions: seq<nat>, lib: Setup)
    requires |s| == |lib.order| && SurvivesJson(s, lib) && PositionsOf(positions, |lib.order|)
    ensures Reread(FieldsAt(s, positions, lib), lib) == FieldsAt(s, positions, lib)
  {
    if positions != [] {
      var k := positions[0];
      RereadFields(s, positions[1..], lib);
      RereadSame(s[k], lib);
      if s[k] != [] {
        var h := FieldsAt(s, positions, lib);
        assert h[0] == Field(lib.order[k], s[k]) && h[1..] == FieldsAt(s, positions[1..], lib);
      } else {
        assert FieldsAt(s, positions, lib) == FieldsAt(s, positions[1..], lib);
      }
    }
  }

  /** Encoding and decoding a header gives exactly what sanitizing gives. */
  lemma CellComesBack(h: Header, lib: Setup)
    requires WellNamed(lib) && SurvivesJson(Sanitized(h, lib), lib)
    ensures Decode(Encode(h, lib), lib) == Sanitized(h, lib)
    ensures Encode(h, lib).EmptyCell? <==> IsEmpty(Sanitized(h, lib))
  {
    var s := Sanitized(h, lib);
    SanitizedFits(h, lib);
    if IsEmpty(s) {
      assert s == Nothing(lib);
    } else {
      RereadFields(s, lib.byName, lib);
      SanitizeIsIdempotent(h, lib);
    }
  }

  // ---------------------------------------------------------------- the loops

  lemma {:induction false} ValuesOfConcat(h: Header, f: Field, i: nat, lib: Setup)
    requires i < |lib.order|
    ensures ValuesOf(h + [f], i, lib)
         == ValuesOf(h, i, lib) + (if lib.canonical(f.name) == lib.order[i] then AdmissibleOf(i, f.values, lib) else [])
  {
    if h == [] {
      assert (h + [f])[1..] == [];
    } else {
      assert (h + [f])[1..] == h[1..] + [f];
      ValuesOfConcat(h[1..], f, i, lib);
    }
  }

  lemma {:induction false} AdmissibleConcat(i: nat, values: seq<string>, v: string, lib: Setup)
    requires i < |lib.order|
    ensures AdmissibleOf(i, values + [v], lib) == AdmissibleOf(i, values, lib) + (if Admissible(i, v, lib) then [v] else [])
  {
    if values == [] {
      assert (values + [v])[1..] == [];
    } else {
      assert (values + [v])[1..] == values[1..] + [v];
      AdmissibleConcat(i, values[1..], v, lib);
    }
  }

  lemma FirstFewConcat(a: seq<string>, b: seq<string>)
    ensures |FirstFew(a)| == MAX_VALUES ==> FirstFew(a + b) == FirstFew(a)
    ensures |FirstFew(a)| < MAX_VALUES && |b| == 1 ==> FirstFew(a + b) == FirstFew(a) + b
  {
  }

  /** The names that Connection headers nominate. */
  method HopByHop(h: Header, lib: Setup) returns (names: set<string>)
    ensures forall name :: name in names <==> Nominated(h, lib, name)
  {
    names := {};
    for k := 0 to |h|
      invariant forall name :: name in names <==> Nominated(h[..k], lib, name)
    {
      ghost var before := names;
      if lib.canonical(h[k].name) == "Connection" {
        names := names + NamesIn(h[k].values, lib);
      }
      assert h[..k + 1] == h[..k] + [h[k]];
      forall name
        ensures name in names <==> Nominated(h[..k + 1], lib, name)
      {
        NominatedConcat(h[..k], h[k], lib, name);
      }
    }
    assert h[..|h|] == h;
  }

  function NamesIn(values: seq<string>, lib: Setup): (names: set<string>)
    ensures forall name :: name in names <==> name != "" && exists v | v in values :: name in lib.nominated(v)
  {
    set v, n | v in values && n in lib.nominated(v) && n != "" :: n
  }

  lemma NominatedConcat(h: Header, f: Field, lib: Setup, name: string)
    ensures Nominated(h + [f], lib, name) <==>
              Nominated(h, lib, name) || (lib.canonical(f.name) == "Connection" && name in NamesIn(f.values, lib))
  {
    if lib.canonical(f.name) == "Connection" && name in NamesIn(f.values, lib) {
      var v :| v in f.values && name in lib.nominated(v);
      assert f in h + [f];
    }
    assert forall g | g in h :: g in h + [f];
  }

  /** The candidates of each name, capped as they are collected. */
  method Collect(h: Header, lib: Setup, hopByHop: set<string>) returns (c: Lists)
    requires Distinct(lib.order) && forall name :: name in hopByHop <==> Nominated(h, lib, name)
    ensures c == Candidates(h, lib)
  {
    c := Nothing(lib);
    for k := 0 to |h|
      invariant CollectedTo(c, h, h[..k], lib)
    {
      var name := lib.canonical(h[k].name);
      var i := Position(lib.order, name);
      ghost var before := c;
      if i.Some? && name !in hopByHop {
        var values := AddValues(c[i.value], h[k].values, i.value, lib, ValuesOf(h[..k], i.value, lib));
        c := c[i.value := values];
      }
      assert h[..k + 1] == h[..k] + [h[k]];
      forall j | 0 <= j < |lib.order|
        ensures c[j] == (if Nominated(h, lib, lib.order[j]) then [] else FirstFew(ValuesOf(h[..k + 1], j, lib)))
      {
        ValuesOfConcat(h[..k], h[k], j, lib);
        assert before[j] == (if Nominated(h, lib, lib.order[j]) then [] else FirstFew(ValuesOf(h[..k], j, lib)));
      }
    }
    assert h[..|h|] == h;
    assert c == Candidates(h, lib);
  }

  ghost predicate CollectedTo(c: Lists, h: Header, met: Header, lib: Setup) {
    |c| == |lib.order| &&
    forall j | 0 <= j < |lib.order| :: c[j] == (if Nominated(h, lib, lib.order[j]) then [] else FirstFew(ValuesOf(met, j, lib)))
  }

  method AddValues(start: seq<string>, values: seq<string>, i: nat, lib: Setup, ghost met: seq<string>) returns (list: seq<string>)
    requires i < |lib.order| && start == FirstFew(met)
    ensures list == FirstFew(met + AdmissibleOf(i, values, lib))
  {
    list := start;
    assert met + [] == met;
    for m := 0 to |values|
      invariant list == FirstFew(met + AdmissibleOf(i, values[..m], lib))
    {
      if |list| >= MAX_VALUES {
        AdmissibleSplit(i, values, m, lib);
        FirstFewConcat(met + AdmissibleOf(i, values[..m], lib), AdmissibleOf(i, values[m..], lib));
        assert met + AdmissibleOf(i, values, lib) == met + AdmissibleOf(i, values[..m], lib) + AdmissibleOf(i, values[m..], lib);
        return;
      }
      var v := values[m];
      assert values[..m + 1] == values[..m] + [v];
      AdmissibleConcat(i, values[..m], v, lib);
      if Admissible(i, v, lib) {
        FirstFewConcat(met + AdmissibleOf(i, values[..m], lib), [v]);
        assert met + (AdmissibleOf(i, values[..m], lib) + [v]) == met + AdmissibleOf(i, values[..m], lib) + [v];
        list := list + [v];
      } else {
        assert AdmissibleOf(i, values[..m], lib) + [] == AdmissibleOf(i, values[..m], lib);
      }
    }
    assert values[..|values|] == values;
  }

  lemma {:induction false} AdmissibleSplit(i: nat, values: seq<string>, m: nat, lib: Setup)
    requires i < |lib.order| && m <= |values|
    ensures AdmissibleOf(i, values, lib) == AdmissibleOf(i, values[..m], lib) + AdmissibleOf(i, values[m..], lib)
  {
    if m > 0 {
      AdmissibleSplit(i, values[1..], m - 1, lib);
      assert values[..m][1..] == values[1..][..m - 1] && values[m..] == values[1..][m - 1..];
    } else {
      assert values[0..] == values;
    }
  }

  method Position(order: seq<string>, name: string) returns (i: Option<nat>)
    ensures i.None? ==> name !in order
    ensures i.Some? ==> i.value < |order| && order[i.value] == name
  {
    for k := 0 to |order|
      invariant name !in order[..k]
    {
      if order[k] == name {
        return Some(k);
      }
    }
    return None;
  }

  /** sanitizeResponseMetadata, with the running size that the program keeps. */
  method Sanitize(h: Header, lib: Setup) returns (safe: Lists, encodedSize: int)
    requires Distinct(lib.order)
    ensures safe == Sanitized(h, lib) && |safe| == |lib.order|
    ensures encodedSize == EncodedLength(safe, lib) <= MAX_ENCODED
  {
    var hopByHop := HopByHop(h, lib);
    var c := Collect(h, lib, hopByHop);
    SanitizedFits(h, lib);
    safe, encodedSize := Nothing(lib), 2;
    NothingEncodes(lib);
    for v := 0 to MAX_VALUES
      invariant Admitting(h, c, safe, encodedSize, v, 0, lib)
    {
      safe, encodedSize := AdmitRound(h, c, safe, encodedSize, v, lib);
    }
  }

  /** One value of each name. */
  method AdmitRound(ghost h: Header, c: Lists, start: Lists, size: int, v: nat, lib: Setup) returns (safe: Lists, encodedSize: int)
    requires Admitting(h, c, start, size, v, 0, lib) && v < MAX_VALUES
    ensures Admitting(h, c, safe, encodedSize, v + 1, 0, lib)
  {
    safe, encodedSize := start, size;
    for i := 0 to |lib.order|
      invariant Admitting(h, c, safe, encodedSize, v, i, lib)
    {
      AdmitOne(h, c, safe, encodedSize, v, i, lib);
      if v < |c[i]| {
        var nextSize := SizeAfterAppend(safe, i, c[i][v], encodedSize, lib);
        if nextSize <= MAX_ENCODED {
          safe, encodedSize := safe[i := safe[i] + [c[i][v]]], nextSize;
        }
      }
    }
    NextRound(h, c, safe, encodedSize, v, lib);
  }

  /** What is admitted so far, and its exact size; the rest of the admission completes it. */
  ghost predicate Admitting(h: Header, c: Lists, safe: Lists, size: int, v: nat, i: nat, lib: Setup) {
    |c| == |safe| == |lib.order| && v <= MAX_VALUES && i <= |lib.order| && size == EncodedLength(safe, lib) &&
    Admit(c, safe, v, i, lib) == Sanitized(h, lib)
  }

  lemma AdmitOne(h: Header, c: Lists, safe: Lists, size: int, v: nat, i: nat, lib: Setup)
    requires Admitting(h, c, safe, size, v, i, lib) && v < MAX_VALUES && i < |lib.order|
    ensures if v < |c[i]| && SizeAfterAppend(safe, i, c[i][v], size, lib) <= MAX_ENCODED then
              Admitting(h, c, safe[i := safe[i] + [c[i][v]]], SizeAfterAppend(safe, i, c[i][v], size, lib), v, i + 1, lib)
            else Admitting(h, c, safe, size, v, i + 1, lib)
  {
    if v < |c[i]| {
      SizeIsExact(safe, i, c[i][v], lib);
    }
  }

  lemma NextRound(h: Header, c: Lists, safe: Lists, size: int, v: nat, lib: Setup)
    requires Admitting(h, c, safe, size, v, |lib.order|, lib) && v < MAX_VALUES
    ensures Admitting(h, c, safe, size, v + 1, 0, lib)
  {
  }
}
