/** Host names in DNS messages (lib/lwip/core/dns.c): the encoding of dns_send, the walk of
    dns_parse_name and the comparison of dns_compare_name (sections 2.3.4 and 3.1 of
    RFC 1035). */
module DnsNames {
  import opened Prelude

  const DOT: Byte := 46

  /** The labels of a dotted name. */
  function Labels(name: seq<Byte>): (ls: seq<seq<Byte>>)
    ensures ls != []
  {
    if name == [] then [[]]
    else if name[0] == DOT then [[]] + Labels(name[1..])
    else [[name[0]] + Labels(name[1..])[0]] + Labels(name[1..])[1..]
  }

  /** Length byte and characters of every label; the length byte is a u8. */
  function Encoding(ls: seq<seq<Byte>>): seq<Byte> {
    if ls == [] then [] else [|ls[0]| % 256] + ls[0] + Encoding(ls[1..])
  }

  /** Labels that dns_parse_name does not take for the end of the name or for a compression
      pointer; the standard allows no more than 63 characters. */
  predicate Plain(ls: seq<seq<Byte>>) {
    forall i | 0 <= i < |ls| :: 1 <= |ls[i]| < 192
  }

  predicate IsHostName(name: seq<Byte>) {
    forall i | 0 <= i < |Labels(name)| :: 1 <= |Labels(name)[i]| <= 63
  }

  // ------------------------------------------------------------------- encoding

  /** A label without a dot, up to the end or to a dot. */
  lemma {:induction false} SplitLabel(part: seq<Byte>, rest: seq<Byte>)
    requires DOT !in part
    ensures Labels(part) == [part] && Labels(part + [DOT] + rest) == [part] + Labels(rest)
  {
    if part == [] {
      assert part + [DOT] + rest == [DOT] + rest && ([DOT] + rest)[1..] == rest;
    } else {
      assert (part + [DOT] + rest)[1..] == part[1..] + [DOT] + rest;
      SplitLabel(part[1..], rest);
      assert [part[0]] + part[1..] == part;
      assert ([part[1..]] + Labels(rest))[0] == part[1..] && ([part[1..]] + Labels(rest))[1..] == Labels(rest);
    }
  }

  lemma {:induction false} EncodedLength(name: seq<Byte>)
    ensures |Encoding(Labels(name))| == |name| + 1
  {
    if name != [] {
      EncodedLength(name[1..]);
      var rest := Labels(name[1..]);
      if name[0] == DOT {
        assert ([[]] + rest)[1..] == rest;
      } else {
        var ls := [[name[0]] + rest[0]] + rest[1..];
        assert ls[1..] == rest[1..];
      }
    }
  }

  lemma EncodingStep(part: seq<Byte>, ls: seq<seq<Byte>>)
    ensures Encoding([part] + ls) == [|part| % 256] + part + Encoding(ls)
  {
    assert ([part] + ls)[1..] == ls;
  }

  /** One label: its length is written into the byte before it once it is known. */
  method EncodeLabel(name: seq<Byte>, start: nat) returns (i: nat, query: seq<Byte>)
    requires start <= |name|
    ensures start <= i <= |name| && DOT !in name[start..i] && (i < |name| ==> name[i] == DOT)
    ensures query == [(i - start) % 256] + name[start..i]
  {
    i, query := start, [0];
    var n: int := 0;
    while i < |name| && name[i] != DOT
      invariant start <= i <= |name| && n == (i - start) % 256
      invariant query == [0] + name[start..i] && DOT !in name[start..i]
    {
      assert name[start..i + 1] == name[start..i] + [name[i]];
      query := query + [name[i]];
      n := (n + 1) % 256;
      i := i + 1;
    }
    query := query[0 := n];
  }

  /** The conversion loop of dns_send. */
  method EncodeName(name: seq<Byte>) returns (query: seq<Byte>)
    requires 0 !in name
    ensures query == Encoding(Labels(name)) + [0] && |query| == |name| + 2
  {
    EncodedLength(name);
    hide Encoding, Labels;
    query := [];
    var start, done := 0, false;
    assert name[0..] == name;
    while !done
      invariant 0 <= start <= |name| + 1 && (!done ==> start <= |name|)
      invariant query + (if done then [] else Encoding(Labels(name[start..]))) == Encoding(Labels(name))
      decreases |name| + 1 - start
    {
      var i, part := EncodeLabel(name, start);
      NextLabel(name, start, i);
      Assoc(query, part, if i == |name| then [] else Encoding(Labels(name[i + 1..])));
      query := query + part;
      start, done := i + 1, i == |name|;
    }
    query := query + [0];
  }

  lemma NextLabel(name: seq<Byte>, start: nat, i: nat)
    requires start <= i <= |name| && DOT !in name[start..i] && (i < |name| ==> name[i] == DOT)
    ensures Encoding(Labels(name[start..]))
         == [(i - start) % 256] + name[start..i] + (if i == |name| then [] else Encoding(Labels(name[i + 1..])))
  {
    var part := name[start..i];
    if i == |name| {
      SplitLabel(part, []);
      EncodingStep(part, []);
      assert name[start..] == part && [part] + [] == [part];
    } else {
      SplitLabel(part, name[i + 1..]);
      EncodingStep(part, Labels(name[i + 1..]));
      assert name[start..] == part + [DOT] + name[i + 1..];
    }
  }

  // -------------------------------------------------------------------- parsing

  /** The bytes from pos on are these labels, a zero byte and something. */
  ghost predicate HasName(buf: seq<Byte>, pos: nat, ls: seq<seq<Byte>>) {
    pos <= |buf| && Encoding(ls) + [0] <= buf[pos..]
  }

  lemma FirstOf(s: seq<Byte>, n: Byte, part: seq<Byte>, rest: seq<Byte>)
    requires [n] + part + rest <= s
    ensures s[0] == n && 1 + |part| <= |s| && s[1..1 + |part|] == part && rest <= s[1 + |part|..]
  {
    var e := [n] + part + rest;
    assert e == s[..|e|];
    assert e[0] == n && e[1..1 + |part|] == part && e[1 + |part|..] == rest;
    assert s[..|e|][1..1 + |part|] == s[1..1 + |part|] && s[..|e|][1 + |part|..] == s[1 + |part|..|e|];
  }

  /** The length byte, the label and the rest of a name in a buffer. */
  lemma HasNameStep(buf: seq<Byte>, pos: nat, ls: seq<seq<Byte>>)
    requires HasName(buf, pos, ls) && Plain(ls) && ls != []
    ensures pos + 1 + |ls[0]| < |buf| && buf[pos] == |ls[0]| && buf[pos + 1..pos + 1 + |ls[0]|] == ls[0]
    ensures HasName(buf, pos + 1 + |ls[0]|, ls[1..]) && |Encoding(ls)| == 1 + |ls[0]| + |Encoding(ls[1..])|
  {
    EncodingUnfold(ls);
    hide Encoding;
    var s, n, part, later := buf[pos..], |ls[0]|, ls[0], Encoding(ls[1..]) + [0];
    Assoc([n] + part, Encoding(ls[1..]), [0]);
    FirstOf(s, n, part, later);
    assert s[1 + n..] == buf[pos + 1 + n..] && s[1..1 + n] == buf[pos + 1..pos + 1 + n];
  }

  /** A zero byte is the end of the name. */
  lemma EndsWithZero(buf: seq<Byte>, pos: nat, ls: seq<seq<Byte>>)
    requires HasName(buf, pos, ls) && Plain(ls)
    ensures pos < |buf| && (buf[pos] == 0 <==> ls == [])
  {
    EncodingUnfold(ls);
    hide Encoding;
    assert (Encoding(ls) + [0])[0] == buf[pos..][0];
  }

  lemma EncodingUnfold(ls: seq<seq<Byte>>)
    ensures ls == [] ==> Encoding(ls) == []
    ensures ls != [] ==> Encoding(ls) == [|ls[0]| % 256] + ls[0] + Encoding(ls[1..]) && Encoding(ls)[0] == |ls[0]| % 256
  {
  }

  /** dns_parse_name stops exactly past the end of the name. */
  method ParseName(buf: seq<Byte>, pos: nat, ghost ls: seq<seq<Byte>>) returns (end: nat)
    requires HasName(buf, pos, ls) && Plain(ls) && ls != []
    ensures end == pos + |Encoding(ls)| + 1
  {
    end := pos;
    ghost var rest := ls;
    while true
      invariant rest != [] && Plain(rest) && HasName(buf, end, rest) && end + |Encoding(rest)| == pos + |Encoding(ls)|
      decreases |rest|
    {
      HasNameStep(buf, end, rest);
      var n := buf[end];
      end := end + 1;
      if n >= 0xC0 {
        break;
      }
      end := end + n;
      rest := rest[1..];
      EndsWithZero(buf, end, rest);
      if buf[end] == 0 {
        break;
      }
    }
    end := end + 1;
  }

  // ------------------------------------------------------------------ comparing

  /** The labels stand in the dotted name, one after the other, with one byte between. */
  predicate MatchAt(name: seq<Byte>, ls: seq<seq<Byte>>, at: nat)
    decreases |ls|
  {
    ls == [] || (at + |ls[0]| <= |name| && name[at..at + |ls[0]|] == ls[0] && MatchAt(name, ls[1..], at + |ls[0]| + 1))
  }

  /** The bytes of the labels and of what separates them. */
  function Span(ls: seq<seq<Byte>>): nat {
    if ls == [] then 0 else |ls[0]| + 1 + Span(ls[1..])
  }

  /** The inner loop of dns_compare_name. */
  method SameBytes(name: seq<Byte>, q: nat, response: seq<Byte>, r: nat, n: nat) returns (same: bool)
    requires q + n <= |name| && r + n <= |response|
    ensures same <==> name[q..q + n] == response[r..r + n]
  {
    var k := 0;
    ghost var ours, theirs := name[q..q + n], response[r..r + n];
    while k < n
      invariant 0 <= k <= n && forall i | 0 <= i < k :: ours[i] == theirs[i]
    {
      assert ours[k] == name[q + k] && theirs[k] == response[r + k];
      if name[q + k] != response[r + k] {
        return false;
      }
      k := k + 1;
    }
    same := true;
  }

  /** dns_compare_name: the dotted name against the encoded one. It looks no further than
      the encoded name goes, and takes any byte for a dot. */
  method CompareName(name: seq<Byte>, response: seq<Byte>, pos: nat, ghost ls: seq<seq<Byte>>) returns (differ: bool)
    requires HasName(response, pos, ls) && Plain(ls) && ls != [] && Span(ls) <= |name|
    ensures differ <==> !MatchAt(name, ls, 0)
  {
    var r: nat, q: nat := pos, 0;
    ghost var rest := ls;
    while true
      invariant rest != [] && Plain(rest) && HasName(response, r, rest) && q + Span(rest) <= |name|
      invariant MatchAt(name, ls, 0) <==> MatchAt(name, rest, q)
      decreases |rest|
    {
      HasNameStep(response, r, rest);
      var n := response[r];
      r := r + 1;
      if n >= 0xC0 {
        break;
      }
      var same := SameBytes(name, q, response, r, n);
      if !same {
        return true;
      }
      r, q := r + n, q + n + 1;
      rest := rest[1..];
      EndsWithZero(response, r, rest);
      if response[r] == 0 {
        break;
      }
    }
    differ := false;
  }

  /** Where the first label ends. */
  function FirstDot(name: seq<Byte>): (n: nat)
    ensures n <= |name| && DOT !in name[..n] && (n < |name| ==> name[n] == DOT)
  {
    if name == [] || name[0] == DOT then 0
    else
      assert forall i: nat | i + 1 <= |name| :: name[..i + 1] == [name[0]] + name[1..][..i];
      1 + FirstDot(name[1..])
  }

  /** The same bytes, but anything may stand for a dot of name. */
  predicate Similar(bytes: seq<Byte>, name: seq<Byte>) {
    |bytes| == |name| && forall i | 0 <= i < |name| :: name[i] == DOT || bytes[i] == name[i]
  }

  predicate Resembles(buf: seq<Byte>, at: nat, name: seq<Byte>) {
    at + |name| <= |buf| && Similar(buf[at..at + |name|], name)
  }

  /** What the label by label comparison comes to. */
  lemma {:induction false} MatchesIff(buf: seq<Byte>, name: seq<Byte>, at: nat)
    ensures MatchAt(buf, Labels(name), at) <==> Resembles(buf, at, name)
    ensures Span(Labels(name)) == |name| + 1
    decreases |name|
  {
    hide Labels, MatchAt, Span, Similar;
    var n := FirstDot(name);
    var part := name[..n];
    if n == |name| {
      SplitLabel(part, []);
      assert name == part;
      MatchStep(buf, part, [], at);
      if at + n <= |buf| {
        SimilarLabel(buf[at..at + n], part);
      }
    } else {
      var rest := name[n + 1..];
      SplitLabel(part, rest);
      assert name == part + [DOT] + rest;
      MatchesIff(buf, rest, at + n + 1);
      MatchStep(buf, part, Labels(rest), at);
      ResemblesStep(buf, part, rest, at);
    }
  }

  lemma MatchStep(buf: seq<Byte>, part: seq<Byte>, ls: seq<seq<Byte>>, at: nat)
    ensures MatchAt(buf, [part] + ls, at)
       <==> at + |part| <= |buf| && buf[at..at + |part|] == part && (ls == [] || MatchAt(buf, ls, at + |part| + 1))
    ensures Span([part] + ls) == |part| + 1 + Span(ls) && Span([]) == 0
    ensures ls == [] ==> [part] + ls == [part]
  {
    assert ([part] + ls)[1..] == ls;
  }

  lemma SimilarLabel(bytes: seq<Byte>, part: seq<Byte>)
    requires DOT !in part
    ensures Similar(bytes, part) <==> bytes == part
  {
    assert forall i | 0 <= i < |part| :: part[i] in part;
  }

  lemma SimilarConcat(a: seq<Byte>, part: seq<Byte>, x: Byte, b: seq<Byte>, rest: seq<Byte>)
    requires |a| == |part| && |b| == |rest|
    ensures Similar(a + [x] + b, part + [DOT] + rest) <==> Similar(a, part) && Similar(b, rest)
  {
    var bytes, name, n := a + [x] + b, part + [DOT] + rest, |part|;
    assert bytes[..n] == a && name[..n] == part && bytes[n + 1..] == b && name[n + 1..] == rest;
    if Similar(bytes, name) {
      forall i | 0 <= i < |rest| ensures rest[i] == DOT || b[i] == rest[i] {
        assert name[n + 1 + i] == rest[i] && bytes[n + 1 + i] == b[i];
      }
    }
    if Similar(a, part) && Similar(b, rest) {
      forall i | 0 <= i < |name| ensures name[i] == DOT || bytes[i] == name[i] {
        if i > n {
          assert name[i] == rest[i - n - 1] && bytes[i] == b[i - n - 1];
        }
      }
    }
  }

  lemma ResemblesStep(buf: seq<Byte>, part: seq<Byte>, rest: seq<Byte>, at: nat)
    requires DOT !in part
    ensures Resembles(buf, at, part + [DOT] + rest)
       <==> at + |part| <= |buf| && buf[at..at + |part|] == part && Resembles(buf, at + |part| + 1, rest)
  {
    var name, n := part + [DOT] + rest, |part|;
    if at + |name| <= |buf| {
      hide Similar;
      var bytes := buf[at..at + |name|];
      var a, b := buf[at..at + n], buf[at + n + 1..at + n + 1 + |rest|];
      assert bytes == a + [buf[at + n]] + b;
      SimilarConcat(a, part, buf[at + n], b, rest);
      SimilarLabel(a, part);
    }
  }

  lemma {:induction false} LastIsNoDot(name: seq<Byte>)
    requires IsHostName(name)
    ensures name != [] && name[|name| - 1] != DOT
    decreases |name|
  {
    hide Labels;
    var n := FirstDot(name);
    var part := name[..n];
    if n == |name| {
      SplitLabel(part, []);
      assert name == part;
      assert |Labels(name)[0]| >= 1 && name[|name| - 1] in name;
    } else {
      var rest := name[n + 1..];
      SplitLabel(part, rest);
      assert name == part + [DOT] + rest;
      forall i | 0 <= i < |Labels(rest)| ensures 1 <= |Labels(rest)[i]| <= 63 {
        assert Labels(name)[i + 1] == Labels(rest)[i];
      }
      LastIsNoDot(rest);
    }
  }

  /** Against a name stored as it is, with a zero byte behind it: equality is reported for
      exactly those names that are not longer and have the same bytes, dots aside. */
  lemma ReportedIff(name: seq<Byte>, other: seq<Byte>)
    requires IsHostName(other) && 0 !in other
    ensures MatchAt(name + [0], Labels(other), 0)
       <==> |other| <= |name| && forall i | 0 <= i < |other| :: other[i] == DOT || name[i] == other[i]
  {
    hide MatchAt, Labels, Span, IsHostName;
    var buf := name + [0];
    MatchesIff(buf, other, 0);
    LastIsNoDot(other);
    if |other| <= |name| {
      assert buf[0..0 + |other|] == name[..|other|];
    } else if |other| == |buf| {
      hide Similar;
      assert buf[0..0 + |other|] == buf;
      ZeroIsNotSimilar(name, other);
    }
  }

  lemma ZeroIsNotSimilar(name: seq<Byte>, other: seq<Byte>)
    requires 0 !in other && other != [] && other[|other| - 1] != DOT
    ensures !Similar(name + [0], other)
  {
    assert other[|other| - 1] in other && (name + [0])[|name|] == 0;
  }

  /** A reported equality is one exactly when the lengths agree and a dot stands for every
      dot. Behind the zero byte the entry may hold anything. */
  lemma ReportedIsEqualIff(name: seq<Byte>, stale: seq<Byte>, other: seq<Byte>)
    requires MatchAt(name + [0] + stale, Labels(other), 0)
    ensures name == other <==> |name| == |other| && forall i | 0 <= i < |other| && other[i] == DOT :: name[i] == DOT
  {
    hide MatchAt, Labels, Span, Similar;
    var buf := name + [0] + stale;
    MatchesIff(buf, other, 0);
    if |name| == |other| {
      assert buf[0..0 + |other|] == name;
      SimilarIsEqualIff(name, other);
    }
  }

  lemma SimilarIsEqualIff(bytes: seq<Byte>, name: seq<Byte>)
    requires Similar(bytes, name)
    ensures bytes == name <==> forall i | 0 <= i < |name| && name[i] == DOT :: bytes[i] == DOT
  {
  }

  // ----------------------------------------------------------------- round trip

  /** For every host name, followed in the message by anything: the encoding is two bytes
      longer than the name, the walk over it ends exactly behind it, and the comparison
      with the name reports equal. */
  method RoundTrip(name: seq<Byte>, before: seq<Byte>, after: seq<Byte>)
    returns (query: seq<Byte>, end: nat, differ: bool)
    requires 0 !in name && IsHostName(name)
    ensures |query| == |name| + 2 && end == |before| + |query| && !differ
  {
    hide Labels, Encoding, Span, MatchAt;
    query := EncodeName(name);
    ghost var ls := Labels(name);
    var buf := before + query + after;
    assert buf[|before|..] == query + after;
    assert HasName(buf, |before|, ls);
    end := ParseName(buf, |before|, ls);
    MatchesIff(name + [0], name, 0);
    assert (name + [0])[0..0 + |name|] == name;
    differ := CompareName(name + [0], buf, |before|, ls);
  }

  /** The labels of two short names. */
  lemma TwoLabels()
    ensures Labels([97]) == [[97]] && Labels([97, DOT, 98]) == [[97], [98]] && Labels([97, 45, 98]) == [[97, 45, 98]]
  {
    SplitLabel([97], [98]);
    SplitLabel([98], []);
    SplitLabel([97, 45, 98], []);
    assert [97, DOT, 98] == [97] + [DOT] + [98];
  }

  /** Equality is reported for more than equal names: `a.b` against `a`. */
  lemma PrefixMatches()
    ensures IsHostName([97, DOT, 98]) && IsHostName([97])
    ensures MatchAt([97, DOT, 98] + [0], Labels([97]), 0)
  {
    TwoLabels();
    hide Labels;
    ReportedIff([97, DOT, 98], [97]);
  }

  /** `a-b` against `a.b`. */
  lemma SeparatorMatches()
    ensures IsHostName([97, 45, 98]) && IsHostName([97, DOT, 98])
    ensures MatchAt([97, 45, 98] + [0], Labels([97, DOT, 98]), 0)
  {
    TwoLabels();
    hide Labels;
    ReportedIff([97, 45, 98], [97, DOT, 98]);
  }

  /** `a`, in an entry that held `a-b` before, against `a.b`. */
  lemma StaleMatches()
    ensures IsHostName([97]) && IsHostName([97, DOT, 98])
    ensures MatchAt([97] + [0] + [98], Labels([97, DOT, 98]), 0)
  {
    TwoLabels();
    hide Labels;
    MatchesIff([97] + [0] + [98], [97, DOT, 98], 0);
    assert ([97] + [0] + [98])[0..0 + 3] == [97, 0, 98];
  }
}
