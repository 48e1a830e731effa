/** Topic names and filters as UTF-8 text, level by level (section 4.7 of MQTT Version 3.1.1). */
module Topics {
  import opened Sequences

  type Text = seq<byte>

  const SLASH: byte := 47
  const PLUS: Text := [43]
  const HASH: Text := [35]

  predicate Continuation(b: byte, low: byte, high: byte) {
    low <= b <= high
  }

  /** How many bytes a lead byte announces. */
  function FormLength(lead: byte): (n: nat)
    ensures 1 <= n <= 4
  {
    if lead < 0x80 then 1 else if lead < 0xE0 then 2 else if lead < 0xF0 then 3 else 4
  }

  /** One whole form: a lead byte and the continuations it announces. */
  predicate Form(s: Text) {
    s != [] && |s| == FormLength(s[0]) &&
    if s[0] < 0x80 then true
    else if s[0] < 0xE0 then 0xC2 <= s[0] && Continuation(s[1], 0x80, 0xBF)
    else if s[0] < 0xF0 then
      Continuation(s[1], if s[0] == 0xE0 then 0xA0 else 0x80, if s[0] == 0xED then 0x9F else 0xBF)
      && Continuation(s[2], 0x80, 0xBF)
    else
      s[0] <= 0xF4
      && Continuation(s[1], if s[0] == 0xF0 then 0x90 else 0x80, if s[0] == 0xF4 then 0x8F else 0xBF)
      && Continuation(s[2], 0x80, 0xBF) && Continuation(s[3], 0x80, 0xBF)
  }

  /** What a strict UTF-8 decoder accepts: no overlong forms, no surrogates, nothing above U+10FFFF (RFC 3629). */
  predicate Utf8(s: Text) {
    s == [] ||
    var n := FormLength(s[0]);
    n <= |s| && Form(s[..n]) && Utf8(s[n..])
  }

  // --- what that is ---

  /** A Unicode scalar value: a code point that is no surrogate. */
  predicate Scalar(c: nat) {
    c < 0xD800 || 0xE000 <= c < 0x110000
  }

  predicate Scalars(cs: seq<nat>) {
    forall i :: 0 <= i < |cs| ==> Scalar(cs[i])
  }

  /** The encoding of section 3 of RFC 3629. */
  function EncodeScalar(c: nat): (s: Text)
    requires Scalar(c)
    ensures 1 <= |s| <= 4
  {
    if c < 0x80 then [c]
    else if c < 0x800 then [0xC0 + c / 64, 0x80 + c % 64]
    else if c < 0x10000 then [0xE0 + c / 4096, 0x80 + c / 64 % 64, 0x80 + c % 64]
    else [0xF0 + c / 262144, 0x80 + c / 4096 % 64, 0x80 + c / 64 % 64, 0x80 + c % 64]
  }

  function EncodeText(cs: seq<nat>): Text
    requires Scalars(cs)
  {
    if cs == [] then [] else EncodeScalar(cs[0]) + EncodeText(cs[1..])
  }

  /** The encoding of one scalar value is one form. */
  lemma EncodedForm(c: nat)
    requires Scalar(c)
    ensures Form(EncodeScalar(c))
  {
  }

  lemma EncodedFirst(c: nat, rest: Text)
    requires Scalar(c)
    ensures Utf8(EncodeScalar(c) + rest) <==> Utf8(rest)
  {
    var e := EncodeScalar(c);
    EncodedForm(c);
    assert (e + rest)[|e|..] == rest && (e + rest)[..|e|] == e && (e + rest)[0] == e[0];
    hide EncodeScalar;
  }

  lemma {:induction false} EncodedIsUtf8(cs: seq<nat>)
    requires Scalars(cs)
    ensures Utf8(EncodeText(cs))
  {
    if cs != [] {
      EncodedFirst(cs[0], EncodeText(cs[1..]));
      EncodedIsUtf8(cs[1..]);
    }
  }

  lemma TwoByteForm(a: byte, b: byte) returns (c: nat)
    requires Form([a, b])
    ensures Scalar(c) && EncodeScalar(c) == [a, b]
  {
    c := (a as int - 0xC0) * 64 + (b as int - 0x80);
  }

  lemma ThreeByteForm(a: byte, b: byte, d: byte) returns (c: nat)
    requires Form([a, b, d])
    ensures Scalar(c) && EncodeScalar(c) == [a, b, d]
  {
    var high: int, middle: int, low: int := a - 0xE0, b - 0x80, d - 0x80;
    c := high * 4096 + middle * 64 + low;
    assert c / 64 == high * 64 + middle && c / 4096 == high;
  }

  lemma FourByteForm(a: byte, b: byte, d: byte, e: byte) returns (c: nat)
    requires Form([a, b, d, e])
    ensures Scalar(c) && EncodeScalar(c) == [a, b, d, e]
  {
    var first: int, high: int, middle: int, low: int := a - 0xF0, b - 0x80, d - 0x80, e - 0x80;
    c := first * 262144 + high * 4096 + middle * 64 + low;
    assert c / 64 == first * 4096 + high * 64 + middle && c / 4096 == first * 64 + high && c / 262144 == first;
  }

  /** Every form is the encoding of a scalar value. */
  lemma FormDecodes(s: Text) returns (c: nat)
    requires Form(s)
    ensures Scalar(c) && EncodeScalar(c) == s
  {
    if |s| == 1 {
      c := s[0];
    } else if |s| == 2 {
      assert s == [s[0], s[1]];
      c := TwoByteForm(s[0], s[1]);
    } else if |s| == 3 {
      assert s == [s[0], s[1], s[2]];
      c := ThreeByteForm(s[0], s[1], s[2]);
    } else {
      assert s == [s[0], s[1], s[2], s[3]];
      c := FourByteForm(s[0], s[1], s[2], s[3]);
    }
  }

  lemma {:induction false} Decode(s: Text) returns (cs: seq<nat>)
    requires Utf8(s)
    ensures Scalars(cs) && EncodeText(cs) == s
    decreases |s|
  {
    if s == [] {
      cs := [];
    } else {
      hide Form, EncodeScalar;
      var n := FormLength(s[0]);
      var c := FormDecodes(s[..n]);
      var later := Decode(s[n..]);
      cs := [c] + later;
      assert cs[1..] == later && s == s[..n] + s[n..];
    }
  }

  /** The decoder accepts exactly the encodings of scalar values. */
  lemma Utf8Exactly(s: Text)
    ensures Utf8(s) <==> exists cs :: Scalars(cs) && EncodeText(cs) == s
  {
    if Utf8(s) {
      var cs := Decode(s);
    }
    forall cs | Scalars(cs) && EncodeText(cs) == s ensures Utf8(s) {
      EncodedIsUtf8(cs);
    }
  }

  // --- levels ---

  function Split(s: Text): (r: seq<Text>)
    ensures |r| > 0
  {
    if s == [] then [[]]
    else if s[0] == SLASH then [[]] + Split(s[1..])
    else [[s[0]] + Split(s[1..])[0]] + Split(s[1..])[1..]
  }

  function Join(levels: seq<Text>): Text
    requires levels != []
  {
    if |levels| == 1 then levels[0] else levels[0] + [SLASH] + Join(levels[1..])
  }

  predicate Level(l: Text) {
    47 !in l
  }

  /** Splitting loses nothing and leaves no separator inside a level. */
  lemma {:induction false} JoinSplit(s: Text)
    ensures Join(Split(s)) == s
    ensures forall i :: 0 <= i < |Split(s)| ==> Level(Split(s)[i])
  {
    if s != [] {
      JoinSplit(s[1..]);
      var later := Split(s[1..]);
      if s[0] == SLASH {
        assert Split(s)[1..] == later;
      } else {
        assert Split(s)[1..] == later[1..];
        assert [s[0]] + s[1..] == s;
        if |later| > 1 {
          assert [s[0]] + (later[0] + [SLASH] + Join(later[1..])) == ([s[0]] + later[0]) + [SLASH] + Join(later[1..]);
        }
      }
    }
  }

  lemma {:induction false} SplitJoin(levels: seq<Text>)
    requires levels != [] && forall i :: 0 <= i < |levels| ==> Level(levels[i])
    ensures Split(Join(levels)) == levels
    decreases |levels|, |levels[0]|
  {
    var s := Join(levels);
    if levels[0] == [] {
      if |levels| > 1 {
        SplitJoin(levels[1..]);
        assert s == [SLASH] + Join(levels[1..]);
        assert s[1..] == Join(levels[1..]);
        assert levels == [[]] + levels[1..];
      }
    } else {
      var shorter := [levels[0][1..]] + levels[1..];
      assert s[1..] == Join(shorter) && s[0] == levels[0][0] by {
        assert shorter[1..] == levels[1..];
      }
      SplitJoin(shorter);
      assert levels[0] == [s[0]] + levels[0][1..];
      assert levels == [levels[0]] + levels[1..];
    }
  }

  // --- filters ---

  /** The standard's reading, one level at a time: '+' stands for any one level, a final '#' for any number. */
  predicate MatchLevels(p: seq<Text>, t: seq<Text>) {
    if p == [] then t == []
    else if p[0] == HASH then |p| == 1
    else t != [] && (p[0] == PLUS || p[0] == t[0]) && MatchLevels(p[1..], t[1..])
  }

  predicate Matches(pattern: Text, topic: Text) {
    MatchLevels(Split(pattern), Split(topic))
  }

  method TopicMatches(pattern: Text, topic: Text) returns (r: bool)
    ensures r == Matches(pattern, topic)
  {
    var pLevels := Split(pattern);
    var tLevels := Split(topic);
    for i := 0 to |pLevels|
      invariant i <= |tLevels|
      invariant MatchLevels(pLevels, tLevels) == MatchLevels(pLevels[i..], tLevels[i..])
    {
      var p := pLevels[i];
      assert pLevels[i..][1..] == pLevels[i + 1..];
      if p == HASH {
        return i == |pLevels| - 1;
      }
      if i >= |tLevels| {
        return false;
      }
      assert tLevels[i..][1..] == tLevels[i + 1..];
      if p != PLUS && p != tLevels[i] {
        return false;
      }
    }
    r := |pLevels| == |tLevels|;
  }

  /** The same relation said position by position: '+' is byte 43 and '#' byte 35. */
  predicate AcceptsLevel(p: Text, t: Text) {
    p != [35] && (p == [43] || p == t)
  }

  predicate Accepts(p: seq<Text>, t: seq<Text>) {
    var fixed := if p != [] && p[|p| - 1] == [35] then |p| - 1 else |p|;
    (if fixed < |p| then fixed <= |t| else fixed == |t|)
    && forall i :: 0 <= i < fixed ==> AcceptsLevel(p[i], t[i])
  }

  lemma {:induction false} MatchIsAccept(p: seq<Text>, t: seq<Text>)
    ensures MatchLevels(p, t) <==> Accepts(p, t)
  {
    if p != [] {
      if p[0] == HASH {
        assert |p| > 1 && Accepts(p, t) ==> AcceptsLevel(p[0], t[0]);
      } else if t != [] {
        MatchIsAccept(p[1..], t[1..]);
        assert |p| > 1 ==> p[1..][|p| - 2] == p[|p| - 1];
        assert Accepts(p, t) && |p| > 1 ==> AcceptsLevel(p[0], t[0]);
        if Accepts(p[1..], t[1..]) && AcceptsLevel(p[0], t[0]) {
          forall i | 0 <= i < |p| && i < |t| && (i == |p| - 1 ==> p[i] != HASH) ensures AcceptsLevel(p[i], t[i]) {
            if i > 0 {
              assert AcceptsLevel(p[1..][i - 1], t[1..][i - 1]);
            }
          }
        }
      }
    }
  }

  /** A closing '#' matches whatever has a leading part, or is itself a part, the rest of the filter matches. */
  lemma {:induction false} HashMatchesBelow(q: seq<Text>, t: seq<Text>)
    requires HASH !in q
    ensures MatchLevels(q + [HASH], t) <==> |q| <= |t| && MatchLevels(q, t[..|q|])
  {
    if q != [] {
      var p := q + [HASH];
      assert p[1..] == q[1..] + [HASH];
      if t != [] {
        HashMatchesBelow(q[1..], t[1..]);
        assert |q| <= |t| ==> t[..|q|][1..] == t[1..][..|q| - 1];
      }
    }
  }

  predicate Literal(pattern: Text) {
    HASH !in Split(pattern) && PLUS !in Split(pattern)
  }

  lemma {:induction false} LiteralLevels(p: seq<Text>, t: seq<Text>)
    requires HASH !in p && PLUS !in p
    ensures MatchLevels(p, t) <==> p == t
  {
    if p != [] && t != [] {
      LiteralLevels(p[1..], t[1..]);
      assert p == [p[0]] + p[1..] && t == [t[0]] + t[1..];
    }
  }

  /** A filter without wildcards is the name of exactly one topic. */
  lemma LiteralMatchesItself(pattern: Text, topic: Text)
    requires Literal(pattern)
    ensures Matches(pattern, topic) <==> pattern == topic
  {
    LiteralLevels(Split(pattern), Split(topic));
    JoinSplit(pattern);
    JoinSplit(topic);
  }
}
