/** String operations the backend performs with JavaScript built-ins:
    `startsWith`, `includes`, `replace(/^https?:\/\//, '')`, `split(':')[0]`,
    `replace(/\./g, '-')` and `Array.prototype.join`. */
module Text {

  predicate StartsWith(s: string, prefix: string) {
    |prefix| <= |s| && s[..|prefix|] == prefix
  }

  /** `sub` occurs in `s` starting at offset `i`. */
  predicate OccursAt(s: string, sub: string, i: int) {
    0 <= i <= |s| - |sub| && s[i..i + |sub|] == sub
  }

  /** `s.includes(sub)`: some window of `s` equals `sub`. */
  predicate Contains(s: string, sub: string) {
    exists i | 0 <= i <= |s| - |sub| :: OccursAt(s, sub, i)
  }

  /** A left-to-right search for `sub`, the way `includes` scans. */
  function Includes(s: string, sub: string): (r: bool)
    ensures r <==> Contains(s, sub)
    decreases |s|
  {
    if |s| < |sub| then false
    else if s[..|sub|] == sub then assert OccursAt(s, sub, 0); true
    else
      ContainsFromTail(s, sub);
      ContainsInTail(s, sub);
      Includes(s[1..], sub)
  }

  /** An occurrence in the tail of `s` is an occurrence in `s`. */
  lemma ContainsFromTail(s: string, sub: string)
    requires |s| > 0
    ensures Contains(s[1..], sub) ==> Contains(s, sub)
  {
    if Contains(s[1..], sub) {
      var i :| 0 <= i <= |s[1..]| - |sub| && OccursAt(s[1..], sub, i);
      assert s[i + 1..i + 1 + |sub|] == s[1..][i..i + |sub|];
      assert OccursAt(s, sub, i + 1);
    }
  }

  /** An occurrence in `s` that is not at its start lies in its tail. */
  lemma ContainsInTail(s: string, sub: string)
    requires |sub| <= |s| && s[..|sub|] != sub
    ensures Contains(s, sub) ==> Contains(s[1..], sub)
  {
    if Contains(s, sub) {
      var i :| 0 <= i <= |s| - |sub| && OccursAt(s, sub, i);
      assert i != 0;
      assert s[1..][i - 1..i - 1 + |sub|] == s[i..i + |sub|];
      assert OccursAt(s[1..], sub, i - 1);
    }
  }

  const Http := "http://"
  const Https := "https://"

  /** `s.replace(/^https?:\/\//, '')`: drops one leading `http://` or
      `https://`, nothing else. */
  function StripScheme(s: string): (r: string)
    ensures StartsWith(s, Http) ==> r == s[|Http|..]
    ensures StartsWith(s, Https) ==> r == s[|Https|..]
    ensures !StartsWith(s, Http) && !StartsWith(s, Https) ==> r == s
    ensures |r| <= |s| && r == s[|s| - |r|..]
  {
    SchemesExclusive(s);
    if StartsWith(s, Http) then s[|Http|..]
    else if StartsWith(s, Https) then s[|Https|..]
    else s
  }

  lemma SchemesExclusive(s: string)
    ensures StartsWith(s, Https) ==> !StartsWith(s, Http)
  {
    if StartsWith(s, Https) {
      assert s[..|Http|][4] == 's';
    }
  }

  /** Stripping inverts prefixing with a scheme. */
  lemma StripSchemeInvertsHttp(host: string)
    ensures StripScheme(Http + host) == host
    ensures StripScheme(Https + host) == host
  {
    assert (Http + host)[..|Http|] == Http;
    assert (Http + host)[|Http|..] == host;
    assert (Https + host)[..|Http|] != Http by {
      assert (Https + host)[4] == 's';
    }
    assert (Https + host)[..|Https|] == Https;
    assert (Https + host)[|Https|..] == host;
  }

  /** `s.split(':')[0]`: everything before the first colon. */
  function BeforeColon(s: string): (r: string)
    ensures ':' !in r
    ensures StartsWith(s, r)
    ensures r == s || s[|r|] == ':'
    decreases |s|
  {
    if |s| == 0 then ""
    else if s[0] == ':' then ""
    else
      var rest := BeforeColon(s[1..]);
      assert s[1..][..|rest|] == rest;
      assert s[..|rest| + 1] == [s[0]] + rest;
      [s[0]] + rest
  }

  /** A string without a colon survives `split(':')[0]` unchanged, and a port
      suffix is removed. */
  lemma BeforeColonOfHostPort(host: string, port: string)
    requires ':' !in host
    ensures BeforeColon(host) == host
    ensures BeforeColon(host + ":" + port) == host
  {
    BeforeColonNoColon(host);
    assert host + ":" + port == host + (":" + port);
    BeforeColonAppend(host, ":" + port);
  }

  lemma {:induction false} BeforeColonNoColon(s: string)
    requires ':' !in s
    ensures BeforeColon(s) == s
    decreases |s|
  {
    if |s| > 0 {
      assert s[0] in s;
      assert forall k :: 0 <= k < |s[1..]| ==> s[1..][k] == s[k + 1];
      BeforeColonNoColon(s[1..]);
      assert s == [s[0]] + s[1..];
    }
  }

  lemma {:induction false} BeforeColonAppend(host: string, tail: string)
    requires ':' !in host
    requires |tail| > 0 && tail[0] == ':'
    ensures BeforeColon(host + tail) == host
    decreases |host|
  {
    if |host| == 0 {
      assert host + tail == tail;
    } else {
      assert host[0] in host;
      assert (host + tail)[1..] == host[1..] + tail;
      assert forall k :: 0 <= k < |host[1..]| ==> host[1..][k] == host[k + 1];
      BeforeColonAppend(host[1..], tail);
      assert host == [host[0]] + host[1..];
    }
  }

  /** The character a dot becomes; every other character stays. */
  function DashOf(ch: char): char {
    if ch == '.' then '-' else ch
  }

  /** `s.replace(/\./g, '-')`. */
  function DotsToDashes(s: string): (r: string)
    ensures |r| == |s|
    ensures '.' !in r
    ensures forall i :: 0 <= i < |s| ==> r[i] == DashOf(s[i])
    decreases |s|
  {
    if |s| == 0 then ""
    else [DashOf(s[0])] + DotsToDashes(s[1..])
  }

  /** Two domains get the same dashed form exactly when they agree everywhere
      except at positions where each has a dot or a dash. */
  lemma DotsToDashesCollide(a: string, b: string)
    ensures DotsToDashes(a) == DotsToDashes(b) <==>
      |a| == |b| &&
      forall i :: 0 <= i < |a| ==>
        a[i] == b[i] || (a[i] in ".-" && b[i] in ".-")
  {
    if DotsToDashes(a) == DotsToDashes(b) {
      CollisionAgrees(a, b);
    }
    if |a| == |b| && forall i :: 0 <= i < |a| ==> a[i] == b[i] || (a[i] in ".-" && b[i] in ".-") {
      AgreementCollides(a, b);
    }
  }

  lemma CollisionAgrees(a: string, b: string)
    requires DotsToDashes(a) == DotsToDashes(b)
    ensures |a| == |b|
    ensures forall i :: 0 <= i < |a| ==> a[i] == b[i] || (a[i] in ".-" && b[i] in ".-")
  {
    var ra, rb := DotsToDashes(a), DotsToDashes(b);
    forall i | 0 <= i < |a|
      ensures a[i] == b[i] || (a[i] in ".-" && b[i] in ".-")
    {
      SameDash(a[i], b[i]);
    }
  }

  lemma SameDash(x: char, y: char)
    requires DashOf(x) == DashOf(y)
    ensures x == y || (x in ".-" && y in ".-")
  {
    assert ".-"[0] == '.' && ".-"[1] == '-';
  }

  lemma AgreementCollides(a: string, b: string)
    requires |a| == |b|
    requires forall i :: 0 <= i < |a| ==> a[i] == b[i] || (a[i] in ".-" && b[i] in ".-")
    ensures DotsToDashes(a) == DotsToDashes(b)
  {
    var ra, rb := DotsToDashes(a), DotsToDashes(b);
    forall i | 0 <= i < |a| ensures ra[i] == rb[i] {
      assert a[i] == b[i] || (a[i] in ".-" && b[i] in ".-");
    }
  }

  /** `parts.join(sep)`. */
  function Join(parts: seq<string>, sep: string): (r: string)
    ensures |parts| == 0 ==> r == ""
    ensures |parts| == 1 ==> r == parts[0]
    decreases |parts|
  {
    if |parts| == 0 then ""
    else if |parts| == 1 then parts[0]
    else parts[0] + sep + Join(parts[1..], sep)
  }

  /** Every part appears in the joined text at a known offset. */
  lemma {:induction false} JoinContainsParts(parts: seq<string>, sep: string, k: nat)
    requires k < |parts|
    ensures Contains(Join(parts, sep), parts[k])
    decreases |parts|
  {
    var j := Join(parts, sep);
    if |parts| == 1 {
      assert OccursAt(j, parts[0], 0);
    } else if k == 0 {
      assert j[0..|parts[0]|] == parts[0];
      assert OccursAt(j, parts[0], 0);
    } else {
      JoinContainsParts(parts[1..], sep, k - 1);
      var rest := Join(parts[1..], sep);
      var i :| 0 <= i <= |rest| - |parts[k]| && OccursAt(rest, parts[k], i);
      var off := |parts[0] + sep|;
      assert j == (parts[0] + sep) + rest;
      assert j[off + i..off + i + |parts[k]|] == rest[i..i + |parts[k]|];
      assert OccursAt(j, parts[k], off + i);
    }
  }

  /** Where part `k` starts in `Join(parts, sep)`: after every earlier part,
      each followed by one separator. */
  function PartOffset(parts: seq<string>, sep: string, k: nat): nat
    requires k <= |parts|
  {
    if k == 0 then 0 else PartOffset(parts, sep, k - 1) + |parts[k - 1]| + |sep|
  }

  /** An offset into the list is the first part and a separator, then the
      offset into the rest. */
  lemma {:induction false} PartOffsetShift(parts: seq<string>, sep: string, k: nat)
    requires 0 < k <= |parts|
    ensures PartOffset(parts, sep, k) == |parts[0]| + |sep| + PartOffset(parts[1..], sep, k - 1)
    decreases k
  {
    if k > 1 {
      PartOffsetShift(parts, sep, k - 1);
      assert parts[1..][k - 2] == parts[k - 1];
    }
  }

  /** A later part starts no earlier than the end of an earlier part and the
      separator after it. */
  lemma {:induction false} PartOffsetsIncrease(parts: seq<string>, sep: string, i: nat, j: nat)
    requires i < j <= |parts|
    ensures PartOffset(parts, sep, i) + |parts[i]| + |sep| <= PartOffset(parts, sep, j)
    decreases j
  {
    if j > i + 1 {
      PartOffsetsIncrease(parts, sep, i, j - 1);
    }
  }

  /** `join` ends with the last part. */
  lemma {:induction false} JoinLength(parts: seq<string>, sep: string)
    requires |parts| > 0
    ensures |Join(parts, sep)| == PartOffset(parts, sep, |parts| - 1) + |parts[|parts| - 1]|
    decreases |parts|
  {
    if |parts| > 1 {
      JoinLength(parts[1..], sep);
      PartOffsetShift(parts, sep, |parts| - 1);
      assert parts[1..][|parts| - 2] == parts[|parts| - 1];
    }
  }

  /** Part `k` sits at its offset in the joined text. */
  lemma {:induction false} JoinPartAt(parts: seq<string>, sep: string, k: nat)
    requires k < |parts|
    ensures OccursAt(Join(parts, sep), parts[k], PartOffset(parts, sep, k))
    decreases |parts|
  {
    var j := Join(parts, sep);
    if k == 0 {
      assert j[0..|parts[0]|] == parts[0];
    } else {
      var rest := parts[1..];
      JoinPartAt(rest, sep, k - 1);
      PartOffsetShift(parts, sep, k);
      assert rest[k - 1] == parts[k];
      var o := PartOffset(rest, sep, k - 1);
      var off := |parts[0]| + |sep|;
      assert j == (parts[0] + sep) + Join(rest, sep);
      assert j[off + o..off + o + |parts[k]|] == Join(rest, sep)[o..o + |parts[k]|];
    }
  }

  /** The separator after part `k` sits right after it. */
  lemma {:induction false} JoinSepAt(parts: seq<string>, sep: string, k: nat)
    requires k + 1 < |parts|
    ensures OccursAt(Join(parts, sep), sep, PartOffset(parts, sep, k) + |parts[k]|)
    decreases |parts|
  {
    var j := Join(parts, sep);
    var rest := parts[1..];
    assert j == (parts[0] + sep) + Join(rest, sep);
    if k == 0 {
      assert j[|parts[0]|..|parts[0]| + |sep|] == sep;
    } else {
      JoinSepAt(rest, sep, k - 1);
      PartOffsetShift(parts, sep, k);
      assert rest[k - 1] == parts[k];
      var o := PartOffset(rest, sep, k - 1) + |rest[k - 1]|;
      var off := |parts[0]| + |sep|;
      assert j[off + o..off + o + |sep|] == Join(rest, sep)[o..o + |sep|];
    }
  }

  /** Part `k` of the list sits in `doc` at `base` plus its offset. */
  predicate PartAt(doc: string, parts: seq<string>, sep: string, base: int, k: nat)
    requires k < |parts|
  {
    OccursAt(doc, parts[k], base + PartOffset(parts, sep, k))
  }

  /** The separator after part `k` sits in `doc` right after that part. */
  predicate SepAt(doc: string, parts: seq<string>, sep: string, base: int, k: nat)
    requires k < |parts|
  {
    OccursAt(doc, sep, base + PartOffset(parts, sep, k) + |parts[k]|)
  }

  /** `text` holds the parts one after another, one `sep` between
      neighbours and nothing else: each part and each separator sits at its
      offset, and the text ends with the last part. */
  predicate LaidOut(text: string, parts: seq<string>, sep: string) {
    && (|parts| == 0 ==> text == "")
    && (|parts| > 0 ==> |text| == PartOffset(parts, sep, |parts| - 1) + |parts[|parts| - 1]|)
    && (forall k :: 0 <= k < |parts| ==> PartAt(text, parts, sep, 0, k))
    && (forall k :: 0 <= k < |parts| - 1 ==> SepAt(text, parts, sep, 0, k))
  }

  /** `join` lays its parts out. */
  lemma JoinLayout(parts: seq<string>, sep: string)
    ensures LaidOut(Join(parts, sep), parts, sep)
  {
    if |parts| > 0 {
      JoinLength(parts, sep);
    }
    forall k | 0 <= k < |parts|
      ensures PartAt(Join(parts, sep), parts, sep, 0, k)
    {
      JoinPartAt(parts, sep, k);
    }
    forall k | 0 <= k < |parts| - 1
      ensures SepAt(Join(parts, sep), parts, sep, 0, k)
    {
      JoinSepAt(parts, sep, k);
    }
  }

  /** A window of the middle operand, shifted by the first operand's length. */
  lemma OccursInConcat(a: string, b: string, c: string, sub: string, i: int)
    requires OccursAt(b, sub, i)
    ensures OccursAt(a + b + c, sub, |a| + i)
  {
    assert (a + b + c)[|a| + i..|a| + i + |sub|] == b[i..i + |sub|];
  }

  /** `doc` is `head`, then the parts in order with one `sep` between
      neighbours, then `tail`, and nothing else: each part and separator
      sits at its offset past the head, and the lengths add up. */
  predicate Framed(doc: string, head: string, parts: seq<string>, sep: string, tail: string) {
    && StartsWith(doc, head)
    && |tail| <= |doc| && doc[|doc| - |tail|..] == tail
    && (|parts| == 0 ==> |doc| == |head| + |tail|)
    && (|parts| > 0 ==> |doc| == |head| + PartOffset(parts, sep, |parts| - 1) + |parts[|parts| - 1]| + |tail|)
    && (forall k :: 0 <= k < |parts| ==> PartAt(doc, parts, sep, |head|, k))
    && (forall k :: 0 <= k < |parts| - 1 ==> SepAt(doc, parts, sep, |head|, k))
  }

  lemma FramedBy(head: string, text: string, tail: string, parts: seq<string>, sep: string)
    requires LaidOut(text, parts, sep)
    ensures Framed(head + text + tail, head, parts, sep, tail)
  {
    var doc := head + text + tail;
    assert doc[..|head|] == head;
    assert doc[|doc| - |tail|..] == tail;
    forall k | 0 <= k < |parts|
      ensures PartAt(doc, parts, sep, |head|, k)
    {
      assert PartAt(text, parts, sep, 0, k);
      OccursInConcat(head, text, tail, parts[k], PartOffset(parts, sep, k));
    }
    forall k | 0 <= k < |parts| - 1
      ensures SepAt(doc, parts, sep, |head|, k)
    {
      assert SepAt(text, parts, sep, 0, k);
      OccursInConcat(head, text, tail, sep, PartOffset(parts, sep, k) + |parts[k]|);
    }
  }

  /** A joined list between a head and a tail is framed by them. */
  lemma JoinIsFramed(head: string, parts: seq<string>, sep: string, tail: string)
    ensures Framed(head + Join(parts, sep) + tail, head, parts, sep, tail)
  {
    JoinLayout(parts, sep);
    FramedBy(head, Join(parts, sep), tail, parts, sep);
  }

  /** A window of an operand is a window of a concatenation. */
  lemma ContainsInConcat(a: string, b: string, c: string, sub: string)
    requires Contains(b, sub)
    ensures Contains(a + b + c, sub)
  {
    var i :| 0 <= i <= |b| - |sub| && OccursAt(b, sub, i);
    var s := a + b + c;
    assert s[|a| + i..|a| + i + |sub|] == sub;
    assert OccursAt(s, sub, |a| + i);
  }

  /** The start of a contained text is contained too. */
  lemma ContainsStartOf(s: string, sub: string, prefix: string)
    requires Contains(s, sub) && StartsWith(sub, prefix)
    ensures Contains(s, prefix)
  {
    var i :| 0 <= i <= |s| - |sub| && OccursAt(s, sub, i);
    assert s[i..i + |prefix|] == sub[..|prefix|];
    assert OccursAt(s, prefix, i);
  }

  /** Appending a numeric port to a host without a scheme does not create
      one: both schemes have '/' at offset 6, and a short host puts ':' or a
      digit there. */
  lemma NoSchemeWithPort(host: string, port: string)
    requires !StartsWith(host, Http) && !StartsWith(host, Https)
    requires forall i :: 0 <= i < |port| ==> '0' <= port[i] <= '9'
    ensures StripScheme(host + ":" + port) == host + ":" + port
  {
    var s := host + ":" + port;
    if |host| >= |Https| {
      assert s[..|Http|] == host[..|Http|];
      assert s[..|Https|] == host[..|Https|];
    } else if |host| == |Http| {
      assert s[..|Http|] == host;
      assert s[7] == ':' && Https[7] == '/';
    } else if |s| >= |Http| {
      assert Http[6] == '/' && Https[6] == '/';
      if |host| == 6 {
        assert s[6] == ':';
      } else {
        assert s[6] == port[6 - |host| - 1];
      }
    }
  }
}
