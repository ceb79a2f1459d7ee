/** The key=value parsing of query strings, form bodies and cookies in HttpRequest. */
module Query {
  import opened Options
  import opened Blocks
  import UrlCodec

  const EQUALS: Byte := 61
  const AMPERSAND: Byte := 38
  const SEMICOLON: Byte := 59

  datatype Param = Param(key: seq<Byte>, value: seq<Byte>)

  /** Pairs in the order of the text. */
  datatype Params = End | Pair(first: Param, rest: Params)

  function Append(ps: Params, qs: Params): Params {
    if ps.End? then qs else Pair(ps.first, Append(ps.rest, qs))
  }

  /** str.find(c, i), with the length for npos. */
  function Find(s: seq<Byte>, c: Byte, i: nat): (j: nat)
    requires i <= |s|
    ensures i <= j <= |s|
    decreases |s| - i
  {
    if i == |s| || s[i] == c then i else Find(s, c, i + 1)
  }

  lemma {:induction false} FindFirst(s: seq<Byte>, c: Byte, i: nat)
    requires i <= |s|
    ensures var j := Find(s, c, i); (j < |s| ==> s[j] == c) && forall k :: i <= k < j ==> s[k] != c
    decreases |s| - i
  {
    if i < |s| && s[i] != c { FindFirst(s, c, i + 1); }
  }

  lemma FindIs(s: seq<Byte>, c: Byte, i: nat, j: nat)
    requires i <= j <= |s| && (j < |s| ==> s[j] == c) && forall k :: i <= k < j ==> s[k] != c
    ensures Find(s, c, i) == j
  {
    FindFirst(s, c, i);
  }

  predicate IsBlank(c: Byte) {
    c == 32 || c == 9 || c == 13 || c == 10
  }

  /** find_first_not_of the blanks, from i on; the length for npos. */
  function FirstNonBlank(s: seq<Byte>, i: nat): (j: nat)
    requires i <= |s|
    ensures i <= j <= |s| && (j < |s| ==> !IsBlank(s[j]))
    decreases |s| - i
  {
    if i == |s| || !IsBlank(s[i]) then i else FirstNonBlank(s, i + 1)
  }

  /** One past find_last_not_of the blanks, among the first j; at least one past a known non-blank. */
  function LastNonBlank(s: seq<Byte>, j: nat, known: nat): (k: nat)
    requires known < j <= |s| && !IsBlank(s[known])
    ensures known < k <= j && !IsBlank(s[k - 1])
    decreases j
  {
    if !IsBlank(s[j - 1]) then j else LastNonBlank(s, j - 1, known)
  }

  /** StringUtil::Trim with its default delimiters. */
  function Trim(s: seq<Byte>): (r: seq<Byte>)
    ensures |r| <= |s| && (r != [] ==> !IsBlank(r[0]) && !IsBlank(r[|r| - 1]))
  {
    var begin := FirstNonBlank(s, 0);
    if begin == |s| then [] else s[begin..LastNonBlank(s, |s|, begin)]
  }

  /** Trimming cuts off the spaces, tabs and line ends at both ends, and nothing else. */
  lemma TrimIs(s: seq<Byte>, i: nat, j: nat)
    requires i <= j <= |s|
    requires forall k :: 0 <= k < i || j <= k < |s| ==> s[k] == 32 || s[k] == 9 || s[k] == 13 || s[k] == 10
    requires i < j ==> s[i] !in [32, 9, 13, 10] && s[j - 1] !in [32, 9, 13, 10]
    ensures Trim(s) == s[i..j]
  {
    FirstNonBlankIs(s, 0, if i < j then i else |s|);
    if i < j { LastNonBlankIs(s, |s|, i, j); }
  }

  lemma {:induction false} FirstNonBlankIs(s: seq<Byte>, from: nat, i: nat)
    requires from <= i <= |s| && (i < |s| ==> s[i] !in [32, 9, 13, 10])
    requires forall k :: from <= k < i ==> s[k] == 32 || s[k] == 9 || s[k] == 13 || s[k] == 10
    ensures FirstNonBlank(s, from) == i
    decreases i - from
  {
    if from < i { FirstNonBlankIs(s, from + 1, i); }
  }

  lemma {:induction false} LastNonBlankIs(s: seq<Byte>, from: nat, known: nat, j: nat)
    requires known < j <= from <= |s| && !IsBlank(s[known]) && s[j - 1] !in [32, 9, 13, 10]
    requires forall k :: j <= k < from ==> s[k] == 32 || s[k] == 9 || s[k] == 13 || s[k] == 10
    ensures LastNonBlank(s, from, known) == j
    decreases from - j
  {
    if j < from { LastNonBlankIs(s, from - 1, known, j); }
  }

  function KeyOf(s: seq<Byte>, trim: bool): seq<Byte> {
    if trim then Trim(s) else s
  }

  /** The pair from i to f with its = at e. */
  function PairAt(s: seq<Byte>, i: nat, e: nat, f: nat, trim: bool): Param
    requires i <= e < f <= |s|
  {
    Param(KeyOf(s[i..e], trim), UrlCodec.Decoding(s[e + 1..f], 0, true))
  }

  /** The pairs that PARSE_PARAM finds from i on, in order. */
  function Parse(s: seq<Byte>, i: nat, flag: Byte, trim: bool): Params
    requires i <= |s| && flag != EQUALS
    decreases |s| - i
  {
    var e := Find(s, EQUALS, i);
    if e == |s| then End
    else
      FindFirst(s, EQUALS, i);
      var f := Find(s, flag, e);
      Pair(PairAt(s, i, e, f, trim), if f == |s| then End else Parse(s, f + 1, flag, trim))
  }

  // The map the pairs go into: keys are compared without regard to case, as C strings.

  function Lower(c: Byte): Byte {
    if 65 <= c <= 90 then c + 32 else c
  }

  /** What two keys must share to be the same to strcasecmp: the bytes up to the first 0, in lower case. */
  function Fold(key: seq<Byte>): seq<Byte> {
    seq(Find(key, 0, 0), i requires 0 <= i < |key| => Lower(key[i]))
  }

  /** map::insert: a key that is there already keeps its pair. */
  function Insert(m: map<seq<Byte>, Param>, p: Param): map<seq<Byte>, Param> {
    if Fold(p.key) in m then m else m[Fold(p.key) := p]
  }

  function InsertAll(m: map<seq<Byte>, Param>, ps: Params): map<seq<Byte>, Param>
    decreases ps
  {
    if ps.End? then m else InsertAll(Insert(m, ps.first), ps.rest)
  }

  /** The first pair for a key. */
  function FirstFor(ps: Params, key: seq<Byte>): Option<Param> {
    if ps.End? then None else if Fold(ps.first.key) == Fold(key) then Some(ps.first) else FirstFor(ps.rest, key)
  }

  /** After all the inserts a key has what it had before, or else its first pair. */
  lemma {:induction false} FirstWins(m: map<seq<Byte>, Param>, ps: Params, key: seq<Byte>)
    ensures var after, k := InsertAll(m, ps), Fold(key);
      (k in after <==> k in m || FirstFor(ps, key).Some?)
      && (k in m ==> after[k] == m[k])
      && (k !in m && FirstFor(ps, key).Some? ==> after[k] == FirstFor(ps, key).value)
    decreases ps
  {
    if ps.Pair? {
      FirstWins(Insert(m, ps.first), ps.rest, key);
    }
  }

  /** m.find(key). */
  function Get(m: map<seq<Byte>, Param>, key: seq<Byte>): Option<Param> {
    if Fold(key) in m then Some(m[Fold(key)]) else None
  }

  // When two keys are one to strcasecmp, said of their bytes.

  /** The C string in s is its first n bytes. */
  predicate CutAt(s: seq<Byte>, n: nat) {
    n <= |s| && (n < |s| ==> s[n] == 0) && forall i :: 0 <= i < n ==> s[i] != 0
  }

  /** The same byte, or the two cases of one letter from A to Z. */
  predicate SameLetter(c: Byte, d: Byte) {
    c == d || (65 <= c <= 90 && d == c + 32) || (65 <= d <= 90 && c == d + 32)
  }

  /** Up to their first 0 byte the keys are as long, and letter by letter the same. */
  ghost predicate SameKey(a: seq<Byte>, b: seq<Byte>) {
    exists n: nat :: CutAt(a, n) && CutAt(b, n) && forall i :: 0 <= i < n ==> SameLetter(a[i], b[i])
  }

  lemma CutIs(s: seq<Byte>)
    ensures CutAt(s, Find(s, 0, 0))
  {
    FindFirst(s, 0, 0);
  }

  /** Two keys share an entry of the map exactly when they are the same key. */
  lemma FoldIff(a: seq<Byte>, b: seq<Byte>)
    ensures Fold(a) == Fold(b) <==> SameKey(a, b)
  {
    CutIs(a);
    CutIs(b);
    var n := Find(a, 0, 0);
    if Fold(a) == Fold(b) {
      assert |Fold(a)| == |Fold(b)|;
      forall i | 0 <= i < n ensures SameLetter(a[i], b[i]) { assert Fold(a)[i] == Fold(b)[i]; }
      assert CutAt(a, n) && CutAt(b, n);
    }
    if SameKey(a, b) {
      var m: nat :| CutAt(a, m) && CutAt(b, m) && forall i :: 0 <= i < m ==> SameLetter(a[i], b[i]);
      CutOnce(a, m, n);
      CutOnce(b, m, Find(b, 0, 0));
      assert forall i :: 0 <= i < m ==> Lower(a[i]) == Lower(b[i]);
    }
  }

  lemma CutOnce(s: seq<Byte>, m: nat, n: nat)
    requires CutAt(s, m) && CutAt(s, n)
    ensures m == n
  {
  }

  /** The first pair of the same key. */
  ghost function FirstOf(ps: Params, key: seq<Byte>): Option<Param> {
    if ps.End? then None else if SameKey(ps.first.key, key) then Some(ps.first) else FirstOf(ps.rest, key)
  }

  lemma {:induction false} FirstForIs(ps: Params, key: seq<Byte>)
    ensures FirstFor(ps, key) == FirstOf(ps, key)
  {
    if ps.Pair? {
      FoldIff(ps.first.key, key);
      FirstForIs(ps.rest, key);
    }
  }

  /** A lookup after the inserts into an empty map finds the first pair of the same key, and none if there is none. */
  lemma GetAfterInserts(ps: Params, key: seq<Byte>)
    ensures Get(InsertAll(map[], ps), key) == FirstOf(ps, key)
  {
    FirstWins(map[], ps, key);
    FirstForIs(ps, key);
  }

  ghost predicate Among(p: Param, ps: Params) {
    ps.Pair? && (ps.first == p || Among(p, ps.rest))
  }

  /** No two pairs have the same key. */
  ghost predicate KeysDiffer(ps: Params) {
    ps.Pair? ==> KeysDiffer(ps.rest) && forall p :: Among(p, ps.rest) ==> !SameKey(ps.first.key, p.key)
  }

  lemma SameSelf(key: seq<Byte>)
    ensures SameKey(key, key)
  {
    FoldIff(key, key);
  }

  lemma {:induction false} FirstOfOwn(ps: Params, p: Param)
    requires KeysDiffer(ps) && Among(p, ps)
    ensures FirstOf(ps, p.key) == Some(p)
  {
    if ps.first == p { SameSelf(p.key); } else { FirstOfOwn(ps.rest, p); }
  }

  lemma {:induction false} InsertBoth(m: map<seq<Byte>, Param>, ps: Params, qs: Params)
    ensures InsertAll(m, Append(ps, qs)) == InsertAll(InsertAll(m, ps), qs)
    decreases ps
  {
    if ps.Pair? {
      InsertBoth(Insert(m, ps.first), ps.rest, qs);
    }
  }

  /** PARSE_PARAM: the loop. */
  method ParseParam(str: seq<Byte>, m: map<seq<Byte>, Param>, flag: Byte, trim: bool)
    returns (more: map<seq<Byte>, Param>)
    requires flag != EQUALS
    ensures more == InsertAll(m, Parse(str, 0, flag, trim))
  {
    var pos := 0;
    more := m;
    while true
      invariant 0 <= pos <= |str|
      invariant InsertAll(more, Parse(str, pos, flag, trim)) == InsertAll(m, Parse(str, 0, flag, trim))
      decreases |str| - pos
    {
      var last := pos;
      pos := Find(str, EQUALS, pos);
      if pos == |str| { return; }
      var key := pos;
      FindFirst(str, EQUALS, last);
      pos := Find(str, flag, pos);
      var value := UrlCodec.UrlDecode(str[key + 1..pos], true);
      more := Insert(more, Param(KeyOf(str[last..key], trim), value));
      if pos == |str| { return; }
      pos := pos + 1;
    }
  }

  // Printing.

  function Printed(p: Param, plus: bool): seq<Byte> {
    p.key + [EQUALS] + UrlCodec.Encoding(p.value, plus)
  }

  /** key=value pairs joined by the separator, values percent-encoded. */
  function Join(ps: Params, flag: Byte, plus: bool): seq<Byte> {
    if ps.End? then []
    else Printed(ps.first, plus) + if ps.rest.End? then [] else [flag] + Join(ps.rest, flag, plus)
  }

  /** The pairs as they are read back: only trimming touches them. */
  function Back(ps: Params, trim: bool): Params {
    if ps.End? then End else Pair(Param(KeyOf(ps.first.key, trim), ps.first.value), Back(ps.rest, trim))
  }

  predicate KeysPlain(ps: Params) {
    ps.Pair? ==> EQUALS !in ps.first.key && KeysPlain(ps.rest)
  }

  /** Text s holds x at i. */
  predicate Holds(s: seq<Byte>, i: nat, x: seq<Byte>) {
    i + |x| <= |s| && forall k :: 0 <= k < |x| ==> s[i + k] == x[k]
  }

  /** Text s holds the printed pairs from i to its end. */
  predicate Laid(s: seq<Byte>, i: nat, ps: Params, flag: Byte, plus: bool)
    decreases ps
  {
    if ps.End? then i == |s|
    else
      var f := i + |Printed(ps.first, plus)|;
      && Holds(s, i, Printed(ps.first, plus))
      && if ps.rest.End? then f == |s| else f < |s| && s[f] == flag && Laid(s, f + 1, ps.rest, flag, plus)
  }

  lemma HoldsParts(s: seq<Byte>, i: nat, one: seq<Byte>, flag: Byte, rest: seq<Byte>)
    requires Holds(s, i, one + ([flag] + rest))
    ensures Holds(s, i, one) && Holds(s, i + |one| + 1, rest) && s[i + |one|] == flag
  {
    var all := one + ([flag] + rest);
    assert all[|one|] == flag;
    forall k | 0 <= k < |one| ensures s[i + k] == one[k] { assert all[k] == one[k]; }
    forall k | 0 <= k < |rest| ensures s[i + |one| + 1 + k] == rest[k] {
      assert s[i + (|one| + 1 + k)] == all[|one| + 1 + k] == rest[k];
    }
  }

  lemma {:induction false} JoinLaid(s: seq<Byte>, i: nat, ps: Params, flag: Byte, plus: bool)
    requires Holds(s, i, Join(ps, flag, plus)) && i + |Join(ps, flag, plus)| == |s|
    ensures Laid(s, i, ps, flag, plus)
    decreases ps
  {
    if ps.Pair? {
      var one := Printed(ps.first, plus);
      if ps.rest.End? {
        assert one + [] == one;
      } else {
        HoldsParts(s, i, one, flag, Join(ps.rest, flag, plus));
        JoinLaid(s, i + |one| + 1, ps.rest, flag, plus);
      }
    }
  }

  lemma SliceIs(s: seq<Byte>, i: nat, x: seq<Byte>)
    requires Holds(s, i, x)
    ensures s[i..i + |x|] == x
  {
  }

  lemma HoldsPrinted(s: seq<Byte>, i: nat, p: Param, plus: bool)
    requires Holds(s, i, Printed(p, plus))
    ensures Holds(s, i, p.key) && Holds(s, i + |p.key| + 1, UrlCodec.Encoding(p.value, plus))
    ensures s[i + |p.key|] == EQUALS
  {
    var v := UrlCodec.Encoding(p.value, plus);
    assert p.key + [EQUALS] + v == p.key + ([EQUALS] + v);
    HoldsParts(s, i, p.key, EQUALS, v);
  }

  /** An encoded value holds no separator. */
  lemma NoSeparator(s: seq<Byte>, i: nat, x: seq<Byte>, plus: bool, flag: Byte, k: nat)
    requires (flag == AMPERSAND || flag == SEMICOLON) && Holds(s, i, UrlCodec.Encoding(x, plus))
    requires i <= k < i + |UrlCodec.Encoding(x, plus)|
    ensures s[k] != flag
  {
    UrlCodec.EncodingClean(x, plus, k - i);
    assert s[i + (k - i)] == UrlCodec.Encoding(x, plus)[k - i];
  }

  /** Where the parser finds the = and the end of a printed pair. */
  lemma PairEnds(s: seq<Byte>, i: nat, f: nat, p: Param, plus: bool, flag: Byte)
    requires EQUALS !in p.key && (flag == AMPERSAND || flag == SEMICOLON)
    requires Holds(s, i, Printed(p, plus)) && f == i + |Printed(p, plus)| && (f < |s| ==> s[f] == flag)
    ensures Find(s, EQUALS, i) == i + |p.key| && Find(s, flag, i + |p.key|) == f
  {
    var e := i + |p.key|;
    HoldsPrinted(s, i, p, plus);
    forall k | i <= k < e ensures s[k] != EQUALS { assert s[i + (k - i)] == p.key[k - i]; }
    FindIs(s, EQUALS, i, e);
    forall k | e < k < f ensures s[k] != flag { NoSeparator(s, e + 1, p.value, plus, flag, k); }
    FindIs(s, flag, e, f);
  }

  lemma PrintedSlices(s: seq<Byte>, i: nat, p: Param, plus: bool)
    requires Holds(s, i, Printed(p, plus))
    ensures var e, f := i + |p.key|, i + |Printed(p, plus)|;
      e < f <= |s| && s[i..e] == p.key && s[e + 1..f] == UrlCodec.Encoding(p.value, plus)
  {
    HoldsPrinted(s, i, p, plus);
    SliceIs(s, i, p.key);
    SliceIs(s, i + |p.key| + 1, UrlCodec.Encoding(p.value, plus));
  }

  /** What a printed pair is read as. */
  lemma PairIs(s: seq<Byte>, i: nat, f: nat, p: Param, plus: bool, trim: bool)
    requires Holds(s, i, Printed(p, plus)) && f == i + |Printed(p, plus)|
    ensures PairAt(s, i, i + |p.key|, f, trim) == Param(KeyOf(p.key, trim), p.value)
  {
    PrintedSlices(s, i, p, plus);
    UrlCodec.RoundTripIff(p.value, plus, true);
  }

  /** So a printed pair is read as itself, and the parser goes on behind it. */
  lemma PairRead(s: seq<Byte>, i: nat, f: nat, p: Param, plus: bool, flag: Byte, trim: bool)
    requires EQUALS !in p.key && (flag == AMPERSAND || flag == SEMICOLON)
    requires Holds(s, i, Printed(p, plus)) && f == i + |Printed(p, plus)| && (f < |s| ==> s[f] == flag)
    ensures Parse(s, i, flag, trim)
      == Pair(Param(KeyOf(p.key, trim), p.value), if f == |s| then End else Parse(s, f + 1, flag, trim))
  {
    PairEnds(s, i, f, p, plus, flag);
    PairIs(s, i, f, p, plus, trim);
  }

  /** Printed pairs come back, with their keys trimmed if the parser trims them. */
  lemma {:induction false} ParseLaid(s: seq<Byte>, i: nat, ps: Params, flag: Byte, plus: bool, trim: bool)
    requires KeysPlain(ps) && (flag == AMPERSAND || flag == SEMICOLON) && i <= |s| && Laid(s, i, ps, flag, plus)
    ensures Parse(s, i, flag, trim) == Back(ps, trim)
    decreases ps
  {
    if ps.Pair? {
      var f := i + |Printed(ps.first, plus)|;
      PairRead(s, i, f, ps.first, plus, flag, trim);
      if ps.rest.Pair? { ParseLaid(s, f + 1, ps.rest, flag, plus, trim); }
    }
  }

  /** So a text printed from pairs parses to them. */
  lemma ParseJoin(ps: Params, flag: Byte, plus: bool, trim: bool)
    requires KeysPlain(ps) && (flag == AMPERSAND || flag == SEMICOLON)
    ensures Parse(Join(ps, flag, plus), 0, flag, trim) == Back(ps, trim)
  {
    JoinLaid(Join(ps, flag, plus), 0, ps, flag, plus);
    ParseLaid(Join(ps, flag, plus), 0, ps, flag, plus, trim);
  }

  lemma {:induction false} BackIsSame(ps: Params)
    ensures Back(ps, false) == ps
  {
    if ps.Pair? { BackIsSame(ps.rest); }
  }

  /** A key that holds = is cut at it. */
  lemma KeyCut(s: seq<Byte>, i: nat, p: Param, plus: bool, flag: Byte)
    requires EQUALS in p.key && flag != EQUALS && Holds(s, i, Printed(p, plus))
    ensures Parse(s, i, flag, false).Pair? && |Parse(s, i, flag, false).first.key| < |p.key|
  {
    HoldsPrinted(s, i, p, plus);
    var k :| 0 <= k < |p.key| && p.key[k] == EQUALS;
    FindFirst(s, EQUALS, i);
    assert s[i + k] == EQUALS;
  }

  /** And then what comes back is something else, whatever the other pairs are. */
  lemma {:induction false} KeyLost(s: seq<Byte>, i: nat, ps: Params, flag: Byte, plus: bool)
    requires !KeysPlain(ps) && (flag == AMPERSAND || flag == SEMICOLON) && i <= |s| && Laid(s, i, ps, flag, plus)
    ensures Parse(s, i, flag, false) != ps
    decreases ps
  {
    if EQUALS in ps.first.key {
      KeyCut(s, i, ps.first, plus, flag);
    } else {
      var f := i + |Printed(ps.first, plus)|;
      PairRead(s, i, f, ps.first, plus, flag, false);
      KeyLost(s, f + 1, ps.rest, flag, plus);
    }
  }

  /**
   Pairs come back from their printed form, every one, in order, exactly when no key holds =.  A lookup then finds
   the first pair of the same key; so each its own if their keys differ.
   */
  lemma QueryRoundTrip(ps: Params, flag: Byte, plus: bool, key: seq<Byte>)
    requires flag == AMPERSAND || flag == SEMICOLON
    ensures Parse(Join(ps, flag, plus), 0, flag, false) == ps <==> KeysPlain(ps)
    ensures KeysPlain(ps) ==>
      Get(InsertAll(map[], Parse(Join(ps, flag, plus), 0, flag, false)), key) == FirstOf(ps, key)
    ensures KeysPlain(ps) && KeysDiffer(ps) ==> forall p :: Among(p, ps) ==>
      Get(InsertAll(map[], Parse(Join(ps, flag, plus), 0, flag, false)), p.key) == Some(p)
  {
    if KeysPlain(ps) {
      ParseJoin(ps, flag, plus, false);
      BackIsSame(ps);
      GetAfterInserts(ps, key);
      if KeysDiffer(ps) {
        forall p | Among(p, ps) ensures Get(InsertAll(map[], ps), p.key) == Some(p) {
          FirstOfOwn(ps, p);
          GetAfterInserts(ps, p.key);
        }
      }
    } else {
      JoinLaid(Join(ps, flag, plus), 0, ps, flag, plus);
      KeyLost(Join(ps, flag, plus), 0, ps, flag, plus);
    }
  }

  /** A pair with a one-digit value, from i to f with its = at e. */
  lemma DigitRead(s: seq<Byte>, i: nat, e: nat, f: nat, key: seq<Byte>, flag: Byte, trim: bool)
    requires i <= e && e + 2 == f <= |s| && s[e] == 61 && 48 <= s[e + 1] <= 57 && flag !in [61, s[e + 1]]
    requires (forall k :: i <= k < e ==> s[k] != 61) && (f < |s| ==> s[f] == flag) && s[i..e] == key
    ensures Parse(s, i, flag, trim)
      == Pair(Param(KeyOf(key, trim), [s[e + 1]]), if f == |s| then End else Parse(s, f + 1, flag, trim))
  {
    FindIs(s, EQUALS, i, e);
    FindIs(s, flag, e, f);
    var v := s[e + 1..f];
    assert v == [s[e + 1]];
    assert UrlCodec.Decoding(v, 0, true) == [v[0]] + UrlCodec.Decoding(v, 1, true) == v;
  }

  /** The text a=1&b=2 holds two parameters ... */
  lemma QueryRead(s: seq<Byte>)
    requires s == [97, 61, 49, 38, 98, 61, 50]
    ensures Parse(s, 0, AMPERSAND, false) == Pair(Param([97], [49]), Pair(Param([98], [50]), End))
  {
    assert s[0..1] == [97] && s[4..5] == [98];
    DigitRead(s, 4, 5, 7, [98], 38, false);
    DigitRead(s, 0, 1, 3, [97], 38, false);
  }

  lemma SecondCookie(s: seq<Byte>)
    requires s == [97, 61, 49, 59, 32, 98, 61, 50]
    ensures Parse(s, 4, SEMICOLON, true) == Pair(Param([98], [50]), End)
  {
    assert s[4..6] == [32, 98];
    DigitRead(s, 4, 6, 8, [32, 98], 59, true);
    KeysTrimmed([97], [32, 98]);
  }

  /** ... and the cookies a=1; b=2 two, whose keys lose their blanks. */
  lemma CookiesRead(s: seq<Byte>)
    requires s == [97, 61, 49, 59, 32, 98, 61, 50]
    ensures Parse(s, 0, SEMICOLON, true) == Pair(Param([97], [49]), Pair(Param([98], [50]), End))
  {
    assert s[0..1] == [97];
    DigitRead(s, 0, 1, 3, [97], 59, true);
    KeysTrimmed([97], [32, 98]);
    SecondCookie(s);
  }

  lemma KeysTrimmed(a: seq<Byte>, b: seq<Byte>)
    requires a == [97] && b == [32, 98]
    ensures Trim(a) == [97] && Trim(b) == [98]
  {
    TrimIs(a, 0, 1);
    TrimIs(b, 1, 2);
    assert a[0..1] == [97] && b[1..2] == [98];
  }

  /** Text without = holds no parameter. */
  lemma NoParameter(s: seq<Byte>, i: nat, flag: Byte, trim: bool)
    requires i <= |s| && flag != EQUALS && forall k :: i <= k < |s| ==> s[k] != 61
    ensures Parse(s, i, flag, trim) == End
  {
    FindIs(s, EQUALS, i, |s|);
  }

  /** The pair a= with value b is one that does not. */
  lemma EqualsInKey()
    ensures var ps := Pair(Param([97, EQUALS], [98]), End);
      Parse(Join(ps, AMPERSAND, true), 0, AMPERSAND, false) != ps
  {
    var p := Param([97, EQUALS], [98]);
    assert p.key[1] == EQUALS;
    QueryRoundTrip(Pair(p, End), AMPERSAND, true, []);
  }

  class HttpRequest {
    var query: seq<Byte>
    var body: seq<Byte>
    var cookie: seq<Byte>
    var formBody: bool
    var params: map<seq<Byte>, Param>
    var cookies: map<seq<Byte>, Param>
    var queryParsed: bool
    var bodyParsed: bool
    var cookiesParsed: bool

    /** initQueryParam: at most once. */
    method InitQueryParam()
      modifies this`params, this`queryParsed
      ensures queryParsed
      ensures params == if old(queryParsed) then old(params)
        else InsertAll(old(params), Parse(query, 0, AMPERSAND, false))
      ensures !old(queryParsed) && old(params) == map[] ==>
        forall key :: Get(params, key) == FirstOf(Parse(query, 0, AMPERSAND, false), key)
    {
      if queryParsed { return; }
      params := ParseParam(query, params, AMPERSAND, false);
      queryParsed := true;
      forall key | old(params) == map[] ensures Get(params, key) == FirstOf(Parse(query, 0, AMPERSAND, false), key) {
        GetAfterInserts(Parse(query, 0, AMPERSAND, false), key);
      }
    }

    /** initBodyParam: at most once, and only for a form; the query's keys win. */
    method InitBodyParam()
      modifies this`params, this`bodyParsed
      ensures bodyParsed
      ensures params == if old(bodyParsed) || !formBody then old(params)
        else InsertAll(old(params), Parse(body, 0, AMPERSAND, false))
    {
      if bodyParsed { return; }
      if !formBody {
        bodyParsed := true;
        return;
      }
      params := ParseParam(body, params, AMPERSAND, false);
      bodyParsed := true;
    }

    /** initCookies: at most once, with keys trimmed. */
    method InitCookies()
      modifies this`cookies, this`cookiesParsed
      ensures cookiesParsed
      ensures cookies == if old(cookiesParsed) || cookie == [] then old(cookies)
        else InsertAll(old(cookies), Parse(cookie, 0, SEMICOLON, true))
    {
      if cookiesParsed { return; }
      if cookie == [] {
        cookiesParsed := true;
        return;
      }
      cookies := ParseParam(cookie, cookies, SEMICOLON, true);
      cookiesParsed := true;
    }

    /** initParam: calling it again changes nothing. */
    method InitParam()
      modifies this`params, this`cookies, this`queryParsed, this`bodyParsed, this`cookiesParsed
      ensures queryParsed && bodyParsed && cookiesParsed
      ensures old(queryParsed && bodyParsed && cookiesParsed) ==> params == old(params) && cookies == old(cookies)
      ensures old(!queryParsed && !bodyParsed) && formBody ==>
        params == InsertAll(old(params), Append(Parse(query, 0, AMPERSAND, false), Parse(body, 0, AMPERSAND, false)))
    {
      InitQueryParam();
      InitBodyParam();
      InitCookies();
      InsertBoth(old(params), Parse(query, 0, AMPERSAND, false), Parse(body, 0, AMPERSAND, false));
    }
  }

}
