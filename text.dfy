/** The few Python string operations the core uses, over `seq<char>`. */
module Text {

  predicate StartsWith(s: string, prefix: string) {
    |prefix| <= |s| && s[..|prefix|] == prefix
  }

  predicate EndsWith(s: string, suffix: string) {
    |suffix| <= |s| && s[|s| - |suffix|..] == suffix
  }

  /** Python's `sub in s` on strings: substring search. */
  predicate Contains(s: string, sub: string)
    decreases |s|
  {
    StartsWith(s, sub) || (s != [] && Contains(s[1..], sub))
  }

  lemma {:induction false} ContainsAt(s: string, sub: string, i: nat)
    requires i + |sub| <= |s| && s[i..i + |sub|] == sub
    ensures Contains(s, sub)
    decreases i
  {
    if i > 0 {
      assert s[1..][i - 1..i - 1 + |sub|] == s[i..i + |sub|];
      ContainsAt(s[1..], sub, i - 1);
    }
  }

  /** Python's `sub in s` holds exactly when `sub` occurs at some index of `s`. */
  lemma {:induction false} ContainsIffInfix(s: string, sub: string)
    ensures Contains(s, sub) <==> exists i :: InfixAt(sub, s, i)
    decreases |s|
  {
    if exists i :: InfixAt(sub, s, i) {
      var i :| InfixAt(sub, s, i);
      ContainsAt(s, sub, i);
    }
    if Contains(s, sub) && !StartsWith(s, sub) {
      ContainsIffInfix(s[1..], sub);
      var i :| InfixAt(sub, s[1..], i);
      assert s[1..][i..i + |sub|] == s[i + 1..i + 1 + |sub|];
      assert InfixAt(sub, s, i + 1);
    }
    if StartsWith(s, sub) {
      assert InfixAt(sub, s, 0);
    }
  }

  function LowerChar(c: char): char {
    if 'A' <= c <= 'Z' then (c as int + 32) as char else c
  }

  /** `str.lower()` restricted to ASCII letters. */
  function Lower(s: string): (r: string)
    ensures |r| == |s|
    ensures forall i :: 0 <= i < |s| ==> r[i] == LowerChar(s[i])
  {
    seq(|s|, i requires 0 <= i < |s| => LowerChar(s[i]))
  }

  /** The characters `str.isspace()` accepts below U+0080. */
  predicate IsSpace(c: char) {
    c == ' ' || (9 <= c as int <= 13) || (28 <= c as int <= 31)
  }

  function StripLeft(s: string): (r: string)
    ensures |r| <= |s| && r == s[|s| - |r|..]
    ensures r == [] || !IsSpace(r[0])
    ensures forall i :: 0 <= i < |s| - |r| ==> IsSpace(s[i])
  {
    if s != [] && IsSpace(s[0]) then StripLeft(s[1..]) else s
  }

  function StripRight(s: string): (r: string)
    ensures |r| <= |s| && r == s[..|r|]
    ensures r == [] || !IsSpace(r[|r| - 1])
    ensures forall i :: |r| <= i < |s| ==> IsSpace(s[i])
  {
    if s != [] && IsSpace(s[|s| - 1]) then StripRight(s[..|s| - 1]) else s
  }

  /** `r` occurs in `s` starting at index `i`. */
  predicate InfixAt(r: string, s: string, i: int) {
    0 <= i && i + |r| <= |s| && s[i..i + |r|] == r
  }

  ghost predicate IsInfix(r: string, s: string) {
    exists i :: InfixAt(r, s, i)
  }

  /** `r` occurs in `s` at `i`, and everything of `s` before and after that occurrence is whitespace. */
  predicate TrimmedAt(r: string, s: string, i: int) {
    && InfixAt(r, s, i)
    && (forall j :: 0 <= j < i ==> IsSpace(s[j]))
    && (forall j :: i + |r| <= j < |s| ==> IsSpace(s[j]))
  }

  /**
   * `str.strip()`: an infix of `s` with only whitespace around it in `s` and none at its own
   * ends, which makes it the longest such infix.
   */
  function Strip(s: string): (r: string)
    ensures IsInfix(r, s)
    ensures exists i :: TrimmedAt(r, s, i)
    ensures r == [] || (!IsSpace(r[0]) && !IsSpace(r[|r| - 1]))
  {
    var l := StripLeft(s);
    var r := StripRight(l);
    var i := |s| - |l|;
    assert r == s[i..][..|r|];
    assert InfixAt(r, s, i);
    forall j | i + |r| <= j < |s|
      ensures IsSpace(s[j])
    {
      assert s[j] == l[j - i];
    }
    assert TrimmedAt(r, s, i);
    r
  }

  /** Returns `s` unchanged when it has no surrounding whitespace. */
  lemma StripNoop(s: string)
    requires s == [] || (!IsSpace(s[0]) && !IsSpace(s[|s| - 1]))
    ensures Strip(s) == s
  {
    assert StripLeft(s) == s;
  }

  // ---------------------------------------------------------------- markdown code fences

  const FENCE := "```"
  const JSON_FENCE := "```json"

  /** A leading "```json", then a leading "```", then a trailing "```", each removed when present. */
  ghost function Unfenced(s: string): string {
    var a := if StartsWith(s, JSON_FENCE) then s[7..] else s;
    var b := if StartsWith(a, FENCE) then a[3..] else a;
    if EndsWith(b, FENCE) then b[..|b| - 3] else b
  }

  /** The fence clean-up applied to a model reply before it is parsed as JSON. */
  method StripFence(s: string) returns (r: string)
    ensures r == Unfenced(s)
  {
    r := s;
    if StartsWith(r, JSON_FENCE) {
      r := r[7..];
    }
    if StartsWith(r, FENCE) {
      r := r[3..];
    }
    if EndsWith(r, FENCE) {
      r := r[..|r| - 3];
    }
  }

  /** A fenced reply has a backtick at both ends, so trimming leaves it as it is. */
  lemma StripFenced(open: string, body: string)
    requires open == FENCE || open == JSON_FENCE
    ensures Strip(open + body + FENCE) == open + body + FENCE
  {
    var s := open + body + FENCE;
    assert s[0] == open[0] == '`';
    assert s[|s| - 1] == FENCE[2] == '`';
    StripNoop(s);
  }

  /** The clean-up only ever cuts text off the two ends. */
  lemma UnfencedInfix(s: string)
    ensures IsInfix(Unfenced(s), s) && |Unfenced(s)| <= |s|
  {
    var a := if StartsWith(s, JSON_FENCE) then s[7..] else s;
    var i := |s| - |a|;
    assert a == s[i..];
    var b := if StartsWith(a, FENCE) then a[3..] else a;
    var j := i + |a| - |b|;
    assert b == s[j..];
    var r := Unfenced(s);
    assert r == s[j..][..|r|];
    assert InfixAt(r, s, j);
  }

  /** Text that starts and ends without a fence marker is left untouched. */
  lemma UnfencedPlain(s: string)
    requires !StartsWith(s, FENCE) && !EndsWith(s, FENCE)
    ensures Unfenced(s) == s
  {
  }

  /** A body wrapped in a "```json" or a bare "```" fence comes back exactly. */
  lemma UnfencedRoundTrip(open: string, body: string)
    requires open == JSON_FENCE || open == FENCE
    requires body == [] || (body[0] != '`' && body[0] != 'j')
    ensures Unfenced(open + body + FENCE) == body
  {
    var rest := body + FENCE;
    assert rest[|body|..] == FENCE && rest[..|body|] == body;
    var s := open + rest;
    assert s == open + body + FENCE;
    assert s[..|open|] == open && s[|open|..] == rest;
    if body == [] {
      assert rest == FENCE && rest[3..] == [];
      if open == FENCE {
        assert !StartsWith(s, JSON_FENCE);
      }
    } else {
      assert rest[0] == body[0];
      assert !StartsWith(rest, FENCE);
      if open == FENCE {
        assert !StartsWith(s, JSON_FENCE) by {
          assert s[3] == body[0];
        }
      }
    }
  }
}
