/** Bytes, C strings and the characters the configuration reader tests for. */
module Bytes {

  type Byte = b: int | 0 <= b < 256

  /** The bytes of a C string, without its terminating NUL. */
  type Str = seq<Byte>

  const NUL: Byte := 0
  const BACKSPACE: Byte := 8
  const TAB: Byte := 9
  const LF: Byte := 10
  const FORMFEED: Byte := 12
  const CR: Byte := 13
  const SPACE: Byte := 32
  const DQUOTE: Byte := 34
  const HASH: Byte := 35
  const SQUOTE: Byte := 39
  const PLUS: Byte := 43
  const COMMA: Byte := 44
  const DASH: Byte := 45
  const DOT: Byte := 46
  const COLON: Byte := 58
  const EQUALS: Byte := 61
  const UPPER_U: Byte := 85
  const LBRACKET: Byte := 91
  const BACKSLASH: Byte := 92
  const RBRACKET: Byte := 93
  const UNDERSCORE: Byte := 95
  const LOWER_B: Byte := 98
  const LOWER_F: Byte := 102
  const LOWER_N: Byte := 110
  const LOWER_R: Byte := 114
  const LOWER_T: Byte := 116
  const LOWER_U: Byte := 117
  const LBRACE: Byte := 123
  const RBRACE: Byte := 125

  datatype Option<+T> = None | Some(value: T)

  /** Reads memory holding the C string `s`: one past its end is the NUL. */
  function At(s: Str, i: nat): Byte {
    if i < |s| then s[i] else NUL
  }

  /** `text` lies in memory at index `at`. */
  predicate LiesAt(mem: Str, at: nat, text: Str) {
    at + |text| <= |mem| && mem[at..at + |text|] == text
  }

  lemma LiesInParts(mem: Str, at: nat, a: Str, b: Str)
    ensures LiesAt(mem, at, a + b) <==> LiesAt(mem, at, a) && LiesAt(mem, at + |a|, b)
  {
    assert (a + b)[..|a|] == a && (a + b)[|a|..] == b;
    if at + |a + b| <= |mem| {
      assert mem[at..at + |a + b|] == mem[at..at + |a|] + mem[at + |a|..at + |a| + |b|];
    }
  }

  predicate IsDigit(b: Byte) { 48 <= b <= 57 }

  predicate IsUpper(b: Byte) { 65 <= b <= 90 }

  predicate IsLower(b: Byte) { 97 <= b <= 122 }

  predicate IsAlnum(b: Byte) { IsDigit(b) || IsUpper(b) || IsLower(b) }

  /** The set `strspn` is given when a line-ending backslash is dropped. */
  predicate IsSpace(b: Byte) { b == SPACE || b == TAB || b == CR || b == LF }

  /** What a C caller sees of a byte buffer: everything before the first NUL. */
  function Cut(s: Str): (r: Str)
    ensures NUL !in r && r <= s
    ensures r == s || s[|r|] == NUL
  {
    if s == [] || s[0] == NUL then [] else [s[0]] + Cut(s[1..])
  }

  lemma Assoc<T>(a: seq<T>, b: seq<T>, c: seq<T>)
    ensures a + (b + c) == a + b + c
  {
  }

  lemma SubSlice(s: Str, i: nat, j: nat, n: nat, m: nat)
    requires i <= j <= |s| && n <= m <= j - i
    ensures s[i..j][n..m] == s[i + n..i + m]
  {
    assert forall k | n <= k < m :: s[i..j][k] == s[i + k];
  }

  /** How many newlines the bytes hold. */
  function Newlines(s: Str): nat {
    if s == [] then 0 else Newlines(s[..|s| - 1]) + (if s[|s| - 1] == LF then 1 else 0)
  }

  lemma {:induction false} NewlinesConcat(a: Str, b: Str)
    ensures Newlines(a + b) == Newlines(a) + Newlines(b)
  {
    if b == [] {
      assert a + b == a;
    } else {
      var b' := b[..|b| - 1];
      assert (a + b)[..|a + b| - 1] == a + b';
      NewlinesConcat(a, b');
    }
  }

  /** Extending a slice by one byte. */
  lemma NewlinesStep(s: Str, i: nat, j: nat)
    requires i <= j < |s|
    ensures Newlines(s[i..j + 1]) == Newlines(s[i..j]) + (if s[j] == LF then 1 else 0)
  {
    assert s[i..j + 1][..j - i] == s[i..j];
  }

  lemma NewlinesSplit(s: Str, i: nat, j: nat)
    requires i <= j <= |s|
    ensures Newlines(s[..j]) == Newlines(s[..i]) + Newlines(s[i..j])
  {
    assert s[..j] == s[..i] + s[i..j];
    NewlinesConcat(s[..i], s[i..j]);
  }
}
