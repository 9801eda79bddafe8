/** The string operations that negotiation and cache keys rely on, for ASCII text. */
module Strings {
  /** `s.partition(sep)[0]`. */
  function Before(s: string, sep: char): (front: string)
    ensures |front| <= |s|
  {
    if s == "" || s[0] == sep then "" else [s[0]] + Before(s[1..], sep)
  }

  /** `s.partition(sep)[2]`. */
  function After(s: string, sep: char): string {
    if s == "" then "" else if s[0] == sep then s[1..] else After(s[1..], sep)
  }

  /** `s.split(sep)`. */
  function Split(s: string, sep: char): (parts: seq<string>)
    ensures |parts| >= 1
    ensures sep !in s ==> parts == [s]
  {
    if s == "" then [""]
    else
      var rest := Split(s[1..], sep);
      assert [s[0]] + s[1..] == s;
      if s[0] == sep then [""] + rest else [[s[0]] + rest[0]] + rest[1..]
  }

  function NonEmpty(parts: seq<string>): (r: seq<string>)
    ensures "" !in r
    ensures forall p :: p in parts && p != "" ==> p in r
    ensures forall p :: p in r ==> p in parts
  {
    if parts == [] then [] else (if parts[0] == "" then [] else [parts[0]]) + NonEmpty(parts[1..])
  }

  function LowerChar(c: char): char {
    if 'A' <= c <= 'Z' then (c as int + 32) as char else c
  }

  function Lower(s: string): string {
    if s == "" then "" else [LowerChar(s[0])] + Lower(s[1..])
  }

  predicate IsSpace(c: char) { c == ' ' || 9 <= c as int <= 13 || 28 <= c as int <= 31 }

  function StripLeft(s: string): string {
    if s != "" && IsSpace(s[0]) then StripLeft(s[1..]) else s
  }

  function StripRight(s: string): string {
    if s != "" && IsSpace(s[|s| - 1]) then StripRight(s[..|s| - 1]) else s
  }

  const UPPER := "ABCDEFGHIJKLMNOPQRSTUVWXYZ"
  const LOWER := "abcdefghijklmnopqrstuvwxyz"

  /** The letters of ASCII one by one, and nothing else; the white space of ASCII and its four separators. */
  lemma {:induction false} Alphabet(c: char)
    ensures |UPPER| == |LOWER| == 26
    ensures forall i :: 0 <= i < 26 ==> LowerChar(UPPER[i]) == LOWER[i]
    ensures c !in UPPER ==> LowerChar(c) == c
    ensures IsSpace(c)
      <==> c in [' ', '\t', '\n', '\U{000B}', '\U{000C}', '\r', '\U{001C}', '\U{001D}', '\U{001E}', '\U{001F}']
  {
    assert forall i :: 0 <= i < 26 ==> UPPER[i] as int == 65 + i && LOWER[i] as int == 97 + i;
    if LowerChar(c) != c {
      assert c == UPPER[c as int - 65];
    }
  }

  function Digit(d: nat): char
    requires d < 10
  {
    (d + 48) as char
  }

  /** `str(n)`. */
  function Decimal(n: nat): (s: string)
    ensures s != "" && ':' !in s
  {
    if n < 10 then [Digit(n)] else Decimal(n / 10) + [Digit(n % 10)]
  }

  /** What stands behind the last separator. */
  function AfterLast(s: string, sep: char): string {
    if s == "" || s[|s| - 1] == sep then "" else AfterLast(s[..|s| - 1], sep) + [s[|s| - 1]]
  }

  lemma {:induction false} Partition(s: string, sep: char)
    ensures sep in s ==> Before(s, sep) + [sep] + After(s, sep) == s
    ensures sep !in s ==> Before(s, sep) == s && After(s, sep) == ""
  {
    if s != "" && s[0] != sep {
      Partition(s[1..], sep);
      assert [s[0]] + s[1..] == s;
      if sep in s {
        assert sep in s[1..];
        assert [s[0]] + (Before(s[1..], sep) + [sep] + After(s[1..], sep))
          == [s[0]] + Before(s[1..], sep) + [sep] + After(s[1..], sep);
      }
    } else if s != "" {
      assert [sep] + s[1..] == s;
    }
  }

  lemma {:induction false} StripLeftKeeps(s: string)
    ensures '/' in StripLeft(s) <==> '/' in s
    ensures |StripLeft(s)| <= |s| && (|StripLeft(s)| == |s| ==> StripLeft(s) == s)
  {
    if s != "" && IsSpace(s[0]) {
      StripLeftKeeps(s[1..]);
      assert [s[0]] + s[1..] == s;
    }
  }

  lemma {:induction false} StripRightKeeps(s: string)
    ensures '/' in StripRight(s) <==> '/' in s
    ensures |StripRight(s)| <= |s| && (|StripRight(s)| == |s| ==> StripRight(s) == s)
  {
    if s != "" && IsSpace(s[|s| - 1]) {
      StripRightKeeps(s[..|s| - 1]);
      assert s[..|s| - 1] + [s[|s| - 1]] == s;
    }
  }

  lemma {:induction false} LowerKeeps(s: string)
    ensures |Lower(s)| == |s|
    ensures '/' in Lower(s) <==> '/' in s
  {
    if s != "" {
      LowerKeeps(s[1..]);
      assert [s[0]] + s[1..] == s;
    }
  }

  lemma {:induction false} BeforeReads(front: string, sep: char, rest: string)
    requires sep !in front
    ensures Before(front + [sep] + rest, sep) == front
  {
    var s := front + [sep] + rest;
    if front != "" {
      assert s[1..] == front[1..] + [sep] + rest;
      BeforeReads(front[1..], sep, rest);
      assert [front[0]] + front[1..] == front;
    }
  }

  lemma {:induction false} BeforeIsFree(s: string, sep: char)
    ensures sep !in Before(s, sep) && Before(s, sep) <= s
    ensures |Before(s, sep)| < |s| ==> s[|Before(s, sep)|] == sep
  {
    if s != "" && s[0] != sep {
      BeforeIsFree(s[1..], sep);
      assert [s[0]] + s[1..] == s;
    }
  }

  lemma {:induction false} SplitInTwo(front: string, sep: char, rest: string)
    requires sep !in front && sep !in rest
    ensures Split(front + [sep] + rest, sep) == [front, rest]
  {
    var s := front + [sep] + rest;
    if front == "" {
      assert s[1..] == rest;
    } else {
      assert s[1..] == front[1..] + [sep] + rest;
      SplitInTwo(front[1..], sep, rest);
      assert [front[0]] + front[1..] == front;
    }
  }

  lemma {:induction false} AfterReads(front: string, sep: char, rest: string)
    requires sep !in front
    ensures After(front + [sep] + rest, sep) == rest
  {
    var s := front + [sep] + rest;
    if front != "" {
      assert s[1..] == front[1..] + [sep] + rest;
      AfterReads(front[1..], sep, rest);
      assert [front[0]] + front[1..] == front;
    }
  }

  /** Text that trimming and lower-casing leave alone. */
  predicate Plain(s: string) { forall c | c in s :: !IsSpace(c) && LowerChar(c) == c }

  lemma {:induction false} PlainStays(s: string)
    requires Plain(s)
    ensures Lower(s) == s && StripLeft(s) == s && StripRight(s) == s
  {
    if s != "" {
      assert [s[0]] + s[1..] == s && s[0] in s && s[|s| - 1] in s;
      PlainStays(s[1..]);
    }
  }

  lemma {:induction false} AfterLastReads(rest: string, sep: char, back: string)
    requires sep !in back
    ensures AfterLast(rest + [sep] + back, sep) == back
  {
    var s := rest + [sep] + back;
    if back != "" {
      var shorter := back[..|back| - 1];
      assert s[..|s| - 1] == rest + [sep] + shorter;
      AfterLastReads(rest, sep, shorter);
      assert shorter + [back[|back| - 1]] == back;
    }
  }

  function ValueOf(s: string): int {
    if s == "" then 0 else ValueOf(s[..|s| - 1]) * 10 + (s[|s| - 1] as int - 48)
  }

  lemma {:induction false} DecimalReads(n: nat)
    ensures ValueOf(Decimal(n)) == n
  {
    if n >= 10 {
      DecimalReads(n / 10);
      assert Decimal(n)[..|Decimal(n)| - 1] == Decimal(n / 10);
    } else {
      assert Decimal(n)[..0] == "";
    }
  }

  // ---- Reading a type out of a text ----

  /** What is left of a type when it is read: no blanks around, no upper-case letters and no parameters. */
  predicate Trimmed(s: string) {
    && (forall c | c in s :: c != ';' && LowerChar(c) == c)
    && (s == "" || (!IsSpace(s[0]) && !IsSpace(s[|s| - 1])))
  }

  lemma {:induction false} LowerIsLow(s: string)
    ensures forall c | c in Lower(s) :: LowerChar(c) == c && (';' !in s ==> c != ';')
    ensures |Lower(s)| == |s| && forall i :: 0 <= i < |s| ==> Lower(s)[i] == LowerChar(s[i])
    ensures (forall c | c in s :: LowerChar(c) == c) ==> Lower(s) == s
  {
    if s != "" {
      LowerIsLow(s[1..]);
      assert [s[0]] + s[1..] == s && Lower(s)[1..] == Lower(s[1..]);
    }
  }

  lemma {:induction false} StripRightEnds(s: string)
    ensures StripRight(s) <= s
    ensures StripRight(s) == "" || !IsSpace(StripRight(s)[|StripRight(s)| - 1])
  {
    if s != "" && IsSpace(s[|s| - 1]) {
      StripRightEnds(s[..|s| - 1]);
    }
  }

  lemma {:induction false} StripLeftStarts(s: string)
    ensures StripLeft(s) == "" || !IsSpace(StripLeft(s)[0])
    ensures forall c | c in StripLeft(s) :: c in s
  {
    if s != "" && IsSpace(s[0]) {
      StripLeftStarts(s[1..]);
    }
  }

  lemma SpaceStays(c: char)
    ensures IsSpace(LowerChar(c)) <==> IsSpace(c)
  {}

  lemma ReadIsTrimmed(text: string)
    ensures Trimmed(Lower(StripRight(StripLeft(Before(text, ';')))))
  {
    var front := Before(text, ';');
    var left := StripLeft(front);
    var both := StripRight(left);
    BeforeIsFree(text, ';');
    StripLeftStarts(front);
    StripRightEnds(left);
    LowerIsLow(both);
    hide Before, StripLeft, StripRight, Lower;
    assert ';' !in both;
    if both != "" {
      assert both[0] == left[0];
      SpaceStays(both[0]);
      SpaceStays(both[|both| - 1]);
    }
  }

  lemma TrimmedStays(s: string)
    requires Trimmed(s)
    ensures Before(s, ';') == s && StripLeft(s) == s && StripRight(s) == s && Lower(s) == s
  {
    Partition(s, ';');
    LowerIsLow(s);
  }

  /** A main type is the front of what it was read from, a subtype the back. */
  lemma PartsOf(s: string)
    requires Trimmed(s)
    ensures var main, sub := Before(s, '/'), After(s, '/');
      && '/' !in main
      && (forall c | c in main || c in sub :: c != ';' && LowerChar(c) == c)
      && (main == "" || !IsSpace(main[0]))
      && (sub == "" || !IsSpace(sub[|sub| - 1]))
  {
    var main, sub := Before(s, '/'), After(s, '/');
    BeforeIsFree(s, '/');
    Partition(s, '/');
    hide Before, After;
    assert forall c | c in main :: c in s;
    if '/' in s {
      assert s == main + ['/'] + sub;
      assert forall c | c in sub :: c in s;
      assert sub != "" ==> sub[|sub| - 1] == s[|s| - 1];
    }
  }

  /** The names of two media types, taken from either, are read back from a text that joins them. */
  lemma NamesJoin(main: string, sub: string, a: string, b: string)
    requires Trimmed(a) && Trimmed(b)
    requires main == Before(a, '/') || main == Before(b, '/')
    requires sub == After(a, '/') || sub == After(b, '/')
    ensures Trimmed(main + "/" + sub) && Before(main + "/" + sub, '/') == main && After(main + "/" + sub, '/') == sub
  {
    PartsOf(a);
    PartsOf(b);
    hide Before, After, IsSpace, LowerChar;
    assert !IsSpace('/') && LowerChar('/') == '/';
    var whole := main + "/" + sub;
    assert whole == main + ['/'] + sub;
    BeforeReads(main, '/', sub);
    AfterReads(main, '/', sub);
    assert whole[0] == if main == "" then '/' else main[0];
    assert whole[|whole| - 1] == if sub == "" then '/' else sub[|sub| - 1];
    assert forall c | c in whole :: c == '/' || c in main || c in sub;
  }
}
