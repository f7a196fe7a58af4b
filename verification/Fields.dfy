/** Keys made of fields joined by a separator, and the rewriting of one field
    (rocksdb.go, GenHijackTsInKeyByIndex). */
module Fields {
  import opened Options
  import opened Bytes

  // ---- Split and Join, as Go's bytes package defines them ----

  predicate Continues(s: Bytes, i: nat) {
    i < |s| && 0x80 <= s[i] <= 0xbf
  }

  /** The length of the first UTF-8 sequence (section 4 of RFC 3629); an invalid one is one byte. */
  function RuneSize(s: Bytes): (r: nat)
    requires s != []
    ensures 1 <= r <= |s|
  {
    var b := s[0];
    if 0xc2 <= b <= 0xdf && Continues(s, 1) then 2
    else if 0xe0 <= b <= 0xef && Continues(s, 1) && Continues(s, 2)
            && (b == 0xe0 ==> s[1] >= 0xa0) && (b == 0xed ==> s[1] <= 0x9f) then 3
    else if 0xf0 <= b <= 0xf4 && Continues(s, 1) && Continues(s, 2) && Continues(s, 3)
            && (b == 0xf0 ==> s[1] >= 0x90) && (b == 0xf4 ==> s[1] <= 0x8f) then 4
    else 1
  }

  predicate IsScalar(c: int) {
    0 <= c < 0xd800 || 0xe000 <= c <= 0x10ffff
  }

  /** The UTF-8 sequence of a character, as section 3 of RFC 3629 makes it: six bits to a byte. */
  function Utf8(c: int): (r: Bytes)
    requires IsScalar(c)
    ensures r != []
  {
    var last, c1 := 0x80 + c % 64, c / 64;
    var third, c2 := 0x80 + c1 % 64, c1 / 64;
    if c < 0x80 then [c]
    else if c < 0x800 then [0xc0 + c1, last]
    else if c < 0x1_0000 then [0xe0 + c2, third, last]
    else [0xf0 + c2 / 64, 0x80 + c2 % 64, third, last]
  }

  /** The sequence of a character counts as one, */
  lemma EncodedRune(c: int, rest: Bytes)
    requires IsScalar(c)
    ensures RuneSize(Utf8(c) + rest) == |Utf8(c)|
  {
  }

  lemma SixBits(high: int, low: int)
    requires 0 <= low < 64
    ensures (high * 64 + low) / 64 == high && (high * 64 + low) % 64 == low
  {
  }

  /** and what counts as one, unless it is a single byte, is the sequence of a character. */
  lemma DecodedRune(s: Bytes) returns (c: int)
    requires s != [] && (RuneSize(s) > 1 || s[0] < 0x80)
    ensures IsScalar(c) && Utf8(c) == s[..RuneSize(s)]
  {
    var n := RuneSize(s);
    c := s[0];
    if n > 1 {
      c := c - (if n == 2 then 0xc0 else if n == 3 then 0xe0 else 0xf0);
      var y: int := s[1];
      SixBits(c, y - 0x80);
      c := c * 64 + (y - 0x80);
    }
    if n > 2 {
      var z: int := s[2];
      SixBits(c, z - 0x80);
      c := c * 64 + (z - 0x80);
    }
    if n > 3 {
      var w: int := s[3];
      SixBits(c, w - 0x80);
      c := c * 64 + (w - 0x80);
    }
  }

  /** What an empty separator splits into. */
  function Explode(s: Bytes): (r: seq<Bytes>)
    ensures forall i :: 0 <= i < |r| ==> r[i] != []
    decreases |s|
  {
    if s == [] then [] else [s[..RuneSize(s)]] + Explode(s[RuneSize(s)..])
  }

  predicate OccursAt(s: Bytes, sep: Bytes, i: int) {
    0 <= i && i + |sep| <= |s| && s[i..i + |sep|] == sep
  }

  /** The leftmost occurrence of sep at or after `from`, or -1. */
  function Find(s: Bytes, sep: Bytes, from: nat): (r: int)
    ensures r == -1 || (from <= r && OccursAt(s, sep, r))
    ensures forall i :: from <= i && (r == -1 || i < r) ==> !OccursAt(s, sep, i)
    decreases |s| - from
  {
    if from + |sep| > |s| then -1
    else if OccursAt(s, sep, from) then from
    else Find(s, sep, from + 1)
  }

  function Split(s: Bytes, sep: Bytes): (r: seq<Bytes>)
    ensures sep != [] ==> |r| >= 1
    decreases |s|
  {
    var i := Find(s, sep, 0);
    if sep == [] then Explode(s)
    else if i == -1 then [s] else [s[..i]] + Split(s[i + |sep|..], sep)
  }

  function Join(fields: seq<Bytes>, sep: Bytes): Bytes {
    if fields == [] then []
    else if |fields| == 1 then fields[0]
    else fields[0] + sep + Join(fields[1..], sep)
  }

  lemma {:induction false} JoinExplode(s: Bytes)
    ensures Join(Explode(s), []) == s
    decreases |s|
  {
    if s != [] {
      var n := RuneSize(s);
      JoinExplode(s[n..]);
      assert Explode(s)[1..] == Explode(s[n..]);
      assert s == s[..n] + s[n..] && s[..n] + [] == s[..n];
      if s[n..] == [] {
        assert Explode(s) == [s[..n]];
      }
    }
  }

  lemma {:induction false} JoinSplit(s: Bytes, sep: Bytes)
    ensures Join(Split(s, sep), sep) == s
    decreases |s|
  {
    var i := Find(s, sep, 0);
    if sep == [] {
      JoinExplode(s);
    } else if i >= 0 {
      JoinSplit(s[i + |sep|..], sep);
      assert Split(s, sep)[1..] == Split(s[i + |sep|..], sep);
      assert s == s[..i] + s[i..i + |sep|] + s[i + |sep|..];
    }
  }

  /** The first field ends at the leftmost separator, */
  lemma FirstFieldIs(s: Bytes, sep: Bytes, i: nat)
    requires sep != [] && OccursAt(s, sep, i) && forall j :: 0 <= j < i ==> !OccursAt(s, sep, j)
    ensures |Split(s, sep)| > 1 && Split(s, sep)[0] == s[..i]
  {
    FindIs(s, sep, i);
  }

  lemma NoneBefore(s: Bytes, sep: Bytes, i: nat, j: int)
    requires OccursAt(s, sep, i) && OccursAt(s[..i], sep, j)
    ensures OccursAt(s, sep, j)
  {
    assert s[..i][j..j + |sep|] == s[j..j + |sep|];
  }

  lemma OneOf(f: Bytes, first: Bytes, rest: seq<Bytes>)
    requires f in [first] + rest
    ensures f == first || f in rest
  {
  }

  /** and no field holds one. */
  lemma {:induction false} FieldsAreFree(s: Bytes, sep: Bytes, f: Bytes, j: int)
    requires sep != [] && f in Split(s, sep)
    ensures !OccursAt(f, sep, j)
    decreases |s|
  {
    var i := Find(s, sep, 0);
    if i >= 0 {
      var rest := s[i + |sep|..];
      OneOf(f, s[..i], Split(rest, sep));
      if f == s[..i] {
        if OccursAt(f, sep, j) { NoneBefore(s, sep, i, j); }
      } else {
        FieldsAreFree(rest, sep, f, j);
      }
    }
  }

  lemma {:induction false} JoinAppend(a: seq<Bytes>, b: seq<Bytes>, sep: Bytes)
    requires a != [] && b != []
    ensures Join(a + b, sep) == Join(a, sep) + sep + Join(b, sep)
  {
    if |a| == 1 {
      assert (a + b)[1..] == b;
    } else {
      JoinAppend(a[1..], b, sep);
      assert (a + b)[1..] == a[1..] + b;
    }
  }

  // ---- the parts of a key around field idx ----

  predicate HasField(k: Bytes, idx: nat, sep: Bytes)
    requires sep != []
  {
    |Split(k, sep)| >= idx + 1
  }

  /** The group prefix: the fields before field idx, joined again. */
  function Head(k: Bytes, idx: nat, sep: Bytes): Bytes
    requires sep != [] && HasField(k, idx, sep)
  {
    Join(Split(k, sep)[..idx], sep)
  }

  function Field(k: Bytes, idx: nat, sep: Bytes): Bytes
    requires sep != [] && HasField(k, idx, sep)
  {
    Split(k, sep)[idx]
  }

  /** What follows field idx, with its leading separator; empty when nothing does. */
  function Tail(k: Bytes, idx: nat, sep: Bytes): Bytes
    requires sep != [] && HasField(k, idx, sep)
  {
    var fields := Split(k, sep);
    if |fields| == idx + 1 then [] else sep + Join(fields[idx + 1..], sep)
  }

  lemma WithField(k: Bytes, idx: nat, sep: Bytes, x: Bytes)
    requires sep != [] && idx >= 1 && HasField(k, idx, sep)
    ensures Join(Split(k, sep)[idx := x], sep) == Head(k, idx, sep) + sep + (x + Tail(k, idx, sep))
  {
    var fields := Split(k, sep);
    var rest := [x] + fields[idx + 1..];
    assert fields[idx := x] == fields[..idx] + rest;
    JoinAppend(fields[..idx], rest, sep);
    if |fields| > idx + 1 {
      JoinAppend([x], fields[idx + 1..], sep);
      assert x + sep + Join(fields[idx + 1..], sep) == x + (sep + Join(fields[idx + 1..], sep));
    } else {
      assert rest == [x] && x + [] == x;
    }
  }

  lemma Parts(k: Bytes, idx: nat, sep: Bytes)
    requires sep != [] && idx >= 1 && HasField(k, idx, sep)
    ensures k == Head(k, idx, sep) + sep + (Field(k, idx, sep) + Tail(k, idx, sep))
  {
    WithField(k, idx, sep, Field(k, idx, sep));
    assert Split(k, sep)[idx := Field(k, idx, sep)] == Split(k, sep);
    JoinSplit(k, sep);
  }

  lemma Grouping(a: Bytes, b: Bytes, c: Bytes)
    ensures a + b + c == a + (b + c) && a <= a + b + c
  {
  }

  lemma AfterHead(k: Bytes, idx: nat, sep: Bytes)
    requires sep != [] && idx >= 1 && HasField(k, idx, sep)
    ensures Head(k, idx, sep) <= k
    ensures k == Head(k, idx, sep) + (sep + (Field(k, idx, sep) + Tail(k, idx, sep)))
  {
    Parts(k, idx, sep);
    Grouping(Head(k, idx, sep), sep, Field(k, idx, sep) + Tail(k, idx, sep));
  }

  /** Head cut field by field, the way Split scans. */
  lemma HeadStep(k: Bytes, idx: nat, sep: Bytes, i: nat)
    requires sep != [] && idx >= 1 && Find(k, sep, 0) == i
    ensures HasField(k, idx, sep) <==> HasField(k[i + |sep|..], idx - 1, sep)
    ensures HasField(k, idx, sep) ==>
              Head(k, idx, sep) ==
              if idx == 1 then k[..i] else k[..i] + sep + Head(k[i + |sep|..], idx - 1, sep)
  {
    var others := Split(k[i + |sep|..], sep);
    assert Split(k, sep) == [k[..i]] + others;
    if |others| >= idx {
      JoinCons(k[..i], others, idx, sep);
    }
  }

  lemma JoinCons(first: Bytes, others: seq<Bytes>, idx: nat, sep: Bytes)
    requires 1 <= idx <= |others|
    ensures Join(([first] + others)[..idx], sep) ==
            if idx == 1 then first else first + sep + Join(others[..idx - 1], sep)
  {
    assert ([first] + others)[..idx] == [first] + others[..idx - 1];
    assert ([first] + others[..idx - 1])[1..] == others[..idx - 1];
  }

  lemma SameSlice(k: Bytes, v: Bytes, n: nat, j: nat, m: nat)
    requires j <= m <= n && n <= |k| && n <= |v| && k[..n] == v[..n]
    ensures k[j..m] == v[j..m]
  {
    assert k[j..m] == k[..n][j..m] && v[j..m] == v[..n][j..m];
  }

  lemma FindIs(v: Bytes, sep: Bytes, i: nat)
    requires OccursAt(v, sep, i)
    requires forall j :: 0 <= j < i ==> !OccursAt(v, sep, j)
    ensures Find(v, sep, 0) == i
  {
  }

  lemma SplitAtByte(head: Bytes, rest: Bytes, b: byte)
    requires b !in head
    ensures Split(head + [b] + rest, [b]) == [head] + Split(rest, [b])
  {
    var k := head + [b] + rest;
    forall i: nat | i <= |head|
      ensures OccursAt(k, [b], i) <==> i == |head|
    {
      assert k[i..i + 1] == [k[i]];
      assert i < |head| ==> k[i] == head[i] && k[i] in head;
    }
    FindIs(k, [b], |head|);
    assert k[..|head|] == head && k[|head| + 1..] == rest;
  }

  lemma SplitNowhere(s: Bytes, b: byte)
    requires b !in s
    ensures Split(s, [b]) == [s]
  {
    forall i: nat | i < |s|
      ensures !OccursAt(s, [b], i)
    {
      assert s[i..i + 1] == [s[i]] && s[i] in s;
    }
  }

  lemma SameOccurrences(k: Bytes, v: Bytes, sep: Bytes, i: nat, j: nat)
    requires OccursAt(k, sep, i) && k[..i] + sep <= v && j <= i
    ensures OccursAt(k, sep, j) <==> OccursAt(v, sep, j)
    ensures v[..i] == k[..i] && v == k[..i] + sep + v[i + |sep|..]
  {
    var n := i + |sep|;
    var p := k[..i] + sep;
    assert k[..n] == p by { assert k[..n] == k[..i] + k[i..n]; }
    assert v[..n] == p && v == v[..n] + v[n..];
    SameSlice(k, v, n, 0, i);
    SameSlice(k, v, n, j, j + |sep|);
  }

  /** A string that starts like k up to and including k's first separator is cut there too. */
  lemma SameFirstCut(k: Bytes, v: Bytes, sep: Bytes, i: nat)
    requires sep != [] && Find(k, sep, 0) == i && k[..i] + sep <= v
    ensures Find(v, sep, 0) == i && v[..i] == k[..i] && v == k[..i] + sep + v[i + |sep|..]
  {
    forall j: nat | j <= i
      ensures OccursAt(v, sep, j) <==> j == i
    {
      SameOccurrences(k, v, sep, i, j);
    }
    SameOccurrences(k, v, sep, i, i);
    FindIs(v, sep, i);
  }

  lemma Behind(first: Bytes, p: Bytes, v: Bytes)
    requires first + p <= v
    ensures first <= v && p <= v[|first|..]
  {
    assert (first + p)[..|first|] == first && (first + p)[|first|..] == p;
  }

  /** A string that starts with a key's group prefix and a separator is in that key's group. */
  lemma {:induction false} HeadIsShared(k: Bytes, v: Bytes, idx: nat, sep: Bytes)
    requires sep != [] && idx >= 1 && HasField(k, idx, sep)
    requires Head(k, idx, sep) + sep <= v
    ensures HasField(v, idx, sep) && Head(v, idx, sep) == Head(k, idx, sep)
    decreases idx
  {
    var i: nat := Find(k, sep, 0);
    HeadStep(k, idx, sep, i);
    var rest := k[i + |sep|..];
    if idx == 1 {
      SameFirstCut(k, v, sep, i);
    } else {
      var first := k[..i] + sep;
      Grouping(first, Head(rest, idx - 1, sep), sep);
      Behind(first, Head(rest, idx - 1, sep) + sep, v);
      SameFirstCut(k, v, sep, i);
      HeadIsShared(rest, v[i + |sep|..], idx - 1, sep);
    }
    HeadStep(v, idx, sep, i);
  }

  // ---- the seek target after a group ----

  ghost predicate HasRoom(p: Bytes) {
    exists i :: 0 <= i < |p| && p[i] != 0xff
  }

  /** The last byte that can be incremented, or -1. */
  function BumpIndex(p: Bytes): (r: int)
    ensures -1 <= r < |p|
    ensures r >= 0 ==> p[r] != 0xff
    ensures forall i :: r < i < |p| ==> p[i] == 0xff
  {
    if p == [] then -1
    else if p[|p| - 1] != 0xff then |p| - 1
    else BumpIndex(p[..|p| - 1])
  }

  /** The prefix with that byte incremented in place; the 0xff bytes after it stay. */
  function Bumped(p: Bytes): (r: Bytes)
    ensures |r| == |p|
  {
    var i := BumpIndex(p);
    if i == -1 then p else p[i := p[i] + 1]
  }

  /** The loop of GenHijackTsInKeyByIndex that increments the joined prefix in place. */
  method BumpInPlace(a: array<byte>)
    modifies a
    ensures a[..] == Bumped(old(a[..]))
  {
    var i := a.Length - 1;
    ghost var p := a[..];
    while i >= 0
      invariant -1 <= i < a.Length
      invariant a[..] == p
      invariant forall j :: i < j < a.Length ==> p[j] == 0xff
    {
      if a[i] != 0xff {
        BumpIndexIs(p, i);
        a[i] := a[i] + 1;
        return;
      }
      i := i - 1;
    }
    BumpIndexIs(p, -1);
  }

  lemma BumpIndexIs(p: Bytes, i: int)
    requires -1 <= i < |p|
    requires i >= 0 ==> p[i] != 0xff
    requires forall j :: i < j < |p| ==> p[j] == 0xff
    ensures BumpIndex(p) == i
  {
    var r := BumpIndex(p);
    assert !(r < i) && !(i < r);
  }

  /** Seeking the bumped prefix moves past every key of the group exactly when the prefix
      has a byte other than 0xff; otherwise the target is at or before the key itself. */
  lemma BumpAdvances(p: Bytes, k: Bytes)
    requires p <= k
    ensures Lt(k, Bumped(p)) <==> HasRoom(p)
  {
    var i := BumpIndex(p);
    if i == -1 {
      PrefixLe(p, k);
    } else {
      var n := Bumped(p);
      assert k == p[..i] + ([p[i]] + k[i + 1..]) by { assert k[..i] == p[..i]; }
      assert n == p[..i] + ([p[i] + 1] + n[i + 1..]);
      LtAppend(p[..i], [p[i]] + k[i + 1..], p[..i], [p[i] + 1] + n[i + 1..]);
    }
  }

  /** Before a byte of the seek target that is not 0xff, the target is the prefix. */
  lemma BumpKeepsBefore(p: Bytes, m: nat)
    requires m < |p| && Bumped(p)[m] != 0xff
    ensures Bumped(p)[..m] == p[..m]
  {
    var i, after := BumpIndex(p), p[m];
    assert i == -1 || m <= i;
  }

  /** When the prefix does not end in 0xff, nothing but the group's own strings lies
      between the prefix and the seek target. */
  lemma BumpGap(p: Bytes, k: Bytes)
    requires p != [] && p[|p| - 1] != 0xff
    requires Le(p, k) && Lt(k, Bumped(p))
    ensures p <= k
  {
    var i := |p| - 1;
    assert BumpIndex(p) == i;
    var n := Bumped(p);
    var q := p[..i];
    assert p == q + [p[i]] && n == q + [p[i] + 1];
    LtAsymmetric(k, n);
    SqueezedPrefix(q, p, k, n);
    assert k == q + k[i..];
    LtAppend(q, k[i..], q, [p[i] + 1]);
    LtAppend(q, k[i..], q, [p[i]]);
    assert k[i..] != [];
    assert k[i] == p[i] by {
      assert Lt(k[i..], [p[i] + 1]) && !Lt(k[i..], [p[i]]);
    }
    assert k[..i + 1] == q + [k[i]];
  }

  // ---- the hijack itself ----

  /** copy into a fresh field of the old field's length: truncated or padded with NUL. */
  function Fit(ts: Bytes, width: nat): (r: Bytes)
    ensures |r| == width
  {
    if |ts| >= width then ts[..width] else ts + seq(width - |ts|, _ => 0)
  }

  /** (rewritten key, seek target after the group). Joining no or one empty field gives a
      nil slice, which the scan reads as "no next group". */
  function HijackTs(idx: nat, sep: Bytes, ts: Bytes, key: Bytes): (Bytes, Option<Bytes>)
  {
    var fields := Split(key, sep);
    if |fields| == 1 || |fields| < idx + 1 then (key, None)
    else
      var joined := Join(fields[..idx], sep);
      (Join(fields[idx := Fit(ts, |fields[idx]|)], sep),
       if joined == [] then None else Some(Bumped(joined)))
  }

  /** The closure GenHijackTsInKeyByIndex returns, with its in-place increment. */
  method Hijack(idx: nat, sep: Bytes, ts: Bytes, key: Bytes) returns (newKey: Bytes, nextKey: Option<Bytes>)
    ensures (newKey, nextKey) == HijackTs(idx, sep, ts, key)
  {
    var fields := Split(key, sep);
    if |fields| == 1 {
      return key, None;
    }
    if |fields| < idx + 1 {
      return key, None;
    }
    nextKey := None;
    if idx >= 1 {
      var joined := Join(fields[..idx], sep);
      if joined != [] {
        var a := new byte[|joined|](i requires 0 <= i < |joined| => joined[i]);
        assert a[..] == joined;
        BumpInPlace(a);
        nextKey := Some(a[..]);
      }
    }
    newKey := Join(fields[idx := Fit(ts, |fields[idx]|)], sep);
  }

  /** What the closure returns for a key that has field idx. */
  lemma HijackParts(idx: nat, sep: Bytes, ts: Bytes, key: Bytes)
    requires sep != [] && idx >= 1 && HasField(key, idx, sep)
    ensures HijackTs(idx, sep, ts, key).0 ==
            Head(key, idx, sep) + sep + (Fit(ts, |Field(key, idx, sep)|) + Tail(key, idx, sep))
    ensures HijackTs(idx, sep, ts, key).1 ==
            if Head(key, idx, sep) == [] then None else Some(Bumped(Head(key, idx, sep)))
  {
    WithField(key, idx, sep, Fit(ts, |Field(key, idx, sep)|));
  }
}
