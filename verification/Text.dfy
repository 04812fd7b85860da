/** Go string operations the agent relies on: decimal printing, splitting and joining on a
    separator, trimming, prefix stripping. Strings are sequences of characters. */
module Text {

  // ---- strconv.Itoa ----

  function Digit(d: nat): char
    requires d < 10
  {
    '0' + d as char
  }

  function DecimalNat(n: nat): (s: string)
    ensures |s| > 0 && forall i | 0 <= i < |s| :: '0' <= s[i] <= '9'
  {
    if n < 10 then [Digit(n)] else DecimalNat(n / 10) + [Digit(n % 10)]
  }

  function Itoa(n: int): string {
    if n < 0 then "-" + DecimalNat(-n) else DecimalNat(n)
  }

  function ReadNat(s: string): int {
    if s == [] then 0 else 10 * ReadNat(s[..|s| - 1]) + (s[|s| - 1] as int - '0' as int)
  }

  function ReadInt(s: string): int {
    if s != [] && s[0] == '-' then -ReadNat(s[1..]) else ReadNat(s)
  }

  lemma {:induction false} DecimalNatReadsBack(n: nat)
    ensures ReadNat(DecimalNat(n)) == n
  {
    if n < 10 {
      assert DecimalNat(n)[..0] == [];
    } else {
      DecimalNatReadsBack(n / 10);
      assert DecimalNat(n)[..|DecimalNat(n)| - 1] == DecimalNat(n / 10);
    }
  }

  /** Decimal printing can be read back, so equal decimals come from equal numbers. */
  lemma ItoaReadsBack(n: int)
    ensures ReadInt(Itoa(n)) == n
  {
    if n < 0 {
      DecimalNatReadsBack(-n);
      assert Itoa(n)[1..] == DecimalNat(-n);
    } else {
      DecimalNatReadsBack(n);
    }
  }

  // ---- strings.Split and strings.Join on a one-character separator ----

  function Split(s: string, sep: char): (parts: seq<string>)
    ensures |parts| > 0
  {
    if s == [] then [""]
    else
      var rest := Split(s[1..], sep);
      if s[0] == sep then [""] + rest else [[s[0]] + rest[0]] + rest[1..]
  }

  function Join(parts: seq<string>, sep: char): string {
    if parts == [] then ""
    else if |parts| == 1 then parts[0]
    else parts[0] + [sep] + Join(parts[1..], sep)
  }

  ghost predicate FreeOf(parts: seq<string>, sep: char) {
    forall i | 0 <= i < |parts| :: sep !in parts[i]
  }

  lemma {:induction false} SplitPartsAreFree(s: string, sep: char)
    ensures FreeOf(Split(s, sep), sep)
  {
    if s != [] {
      SplitPartsAreFree(s[1..], sep);
    }
  }

  lemma {:induction false} JoinUndoesSplit(s: string, sep: char)
    ensures Join(Split(s, sep), sep) == s
  {
    if s != [] {
      JoinUndoesSplit(s[1..], sep);
      var rest := Split(s[1..], sep);
      if s[0] == sep {
        assert ([""] + rest)[1..] == rest;
      } else {
        var parts := [[s[0]] + rest[0]] + rest[1..];
        assert parts[1..] == rest[1..];
        assert Join(parts, sep) == [s[0]] + Join(rest, sep);
      }
      assert s == [s[0]] + s[1..];
    }
  }

  lemma {:induction false} SplitAtFirstSeparator(head: string, sep: char, tail: string)
    requires sep !in head
    ensures Split(head + [sep] + tail, sep) == [head] + Split(tail, sep)
  {
    var s := head + [sep] + tail;
    if head == [] {
      assert s[1..] == tail;
    } else {
      SplitAtFirstSeparator(head[1..], sep, tail);
      assert s[1..] == head[1..] + [sep] + tail;
      assert head == [head[0]] + head[1..];
    }
  }

  lemma {:induction false} SplitWhole(s: string, sep: char)
    requires sep !in s
    ensures Split(s, sep) == [s]
  {
    if s != [] {
      SplitWhole(s[1..], sep);
      assert s == [s[0]] + s[1..];
    }
  }

  lemma {:induction false} SplitUndoesJoin(parts: seq<string>, sep: char)
    requires parts != [] && FreeOf(parts, sep)
    ensures Split(Join(parts, sep), sep) == parts
  {
    if |parts| == 1 {
      SplitWhole(parts[0], sep);
    } else {
      SplitUndoesJoin(parts[1..], sep);
      SplitAtFirstSeparator(parts[0], sep, Join(parts[1..], sep));
    }
  }

  /** Splitting a joined list returns the list exactly when no part holds the separator. */
  lemma SplitJoinExactly(parts: seq<string>, sep: char)
    requires parts != []
    ensures Split(Join(parts, sep), sep) == parts <==> FreeOf(parts, sep)
  {
    if FreeOf(parts, sep) {
      SplitUndoesJoin(parts, sep);
    } else if Split(Join(parts, sep), sep) == parts {
      SplitPartsAreFree(Join(parts, sep), sep);
    }
  }

  // ---- strings.TrimSpace ----

  predicate IsSpace(c: char) {
    c in {'\t', '\n', '\U{B}', '\U{C}', '\r', ' ', '\U{85}', '\U{A0}', '\U{1680}', '\U{2028}', '\U{2029}', '\U{202F}',
          '\U{205F}', '\U{3000}'}
    || '\U{2000}' <= c <= '\U{200A}'
  }

  function TrimLeft(s: string): (t: string)
    ensures |t| <= |s| && t == s[|s| - |t|..]
    ensures t != [] ==> !IsSpace(t[0])
  {
    if s != [] && IsSpace(s[0]) then TrimLeft(s[1..]) else s
  }

  function TrimRight(s: string): (t: string)
    ensures t <= s
    ensures t != [] ==> !IsSpace(t[|t| - 1])
  {
    if s != [] && IsSpace(s[|s| - 1]) then TrimRight(s[..|s| - 1]) else s
  }

  function TrimSpace(s: string): (t: string)
    ensures t != [] ==> !IsSpace(t[0]) && !IsSpace(t[|t| - 1])
    ensures |t| <= |s|
  {
    TrimRight(TrimLeft(s))
  }

  lemma TrimSpaceKeepsTrimmed(s: string)
    requires s != [] ==> !IsSpace(s[0]) && !IsSpace(s[|s| - 1])
    ensures TrimSpace(s) == s
  {
  }

  lemma {:induction false} TrimLeftOver(a: string, c: char, b: string)
    requires !IsSpace(c)
    ensures TrimLeft(a + [c] + b) == TrimLeft(a) + [c] + b
  {
    hide IsSpace;
    if a != "" {
      assert (a + [c] + b)[1..] == a[1..] + [c] + b;
      TrimLeftOver(a[1..], c, b);
    }
  }

  lemma {:induction false} TrimRightOver(a: string, c: char, b: string)
    requires !IsSpace(c)
    ensures TrimRight(a + [c] + b) == a + [c] + TrimRight(b)
  {
    hide IsSpace;
    if b != "" {
      assert (a + [c] + b)[..|a + [c] + b| - 1] == a + [c] + b[..|b| - 1];
      TrimRightOver(a, c, b[..|b| - 1]);
    }
  }

  /** Trimming stops at a character in the middle that is no space. */
  lemma TrimOver(a: string, c: char, b: string)
    requires !IsSpace(c)
    ensures TrimSpace(a + [c] + b) == TrimLeft(a) + [c] + TrimRight(b)
  {
    hide IsSpace; hide TrimLeft; hide TrimRight;
    TrimLeftOver(a, c, b);
    TrimRightOver(TrimLeft(a), c, b);
  }

  lemma {:induction false} TrimLeftTwice(s: string)
    ensures TrimLeft(TrimLeft(s)) == TrimLeft(s)
  {
    hide IsSpace;
    if s != "" && IsSpace(s[0]) {
      TrimLeftTwice(s[1..]);
    }
  }

  lemma TrimKeepsFree(s: string, c: char)
    requires c !in s
    ensures c !in TrimLeft(s) && c !in TrimRight(s) && c !in TrimSpace(s)
  {
    hide IsSpace; hide TrimLeft; hide TrimRight;
  }

  function TrimPrefix(s: string, prefix: string): string {
    if prefix <= s then s[|prefix|..] else s
  }

  /** All of it white space. */
  ghost predicate Blanks(s: string) {
    forall i | 0 <= i < |s| :: IsSpace(s[i])
  }

  lemma {:induction false} TrimLeftPadded(a: string, s: string)
    requires Blanks(a) && (s != "" ==> !IsSpace(s[0]))
    ensures TrimLeft(a + s) == s
  {
    hide IsSpace;
    if a != "" {
      assert (a + s)[1..] == a[1..] + s;
      TrimLeftPadded(a[1..], s);
    } else {
      assert a + s == s;
    }
  }

  lemma {:induction false} TrimRightPadded(s: string, b: string)
    requires Blanks(b) && (s != "" ==> !IsSpace(s[|s| - 1]))
    ensures TrimRight(s + b) == s
  {
    hide IsSpace;
    if b != "" {
      assert (s + b)[..|s + b| - 1] == s + b[..|b| - 1];
      TrimRightPadded(s, b[..|b| - 1]);
    } else {
      assert s + b == s;
    }
  }

  /** White space on either side of a text that has none there, or is empty, is what is trimmed. */
  lemma TrimPadded(a: string, s: string, b: string)
    requires Blanks(a) && Blanks(b) && (s != "" ==> !IsSpace(s[0]) && !IsSpace(s[|s| - 1]))
    ensures TrimSpace(a + s + b) == s
  {
    hide IsSpace; hide TrimLeft; hide TrimRight;
    if s == "" {
      assert Blanks(a + b) && a + s + b == a + b + "";
      TrimLeftPadded(a + b, "");
      TrimRightPadded("", "");
      assert "" + "" == "";
    } else {
      assert a + s + b == a + (s + b);
      TrimLeftPadded(a, s + b);
      TrimRightPadded(s, b);
    }
  }

  /** ASCII lower-casing. */
  function ToLower(s: string): (t: string)
    ensures |t| == |s|
    ensures forall i | 0 <= i < |s| ::
              if s[i] in "ABCDEFGHIJKLMNOPQRSTUVWXYZ" then t[i] as int == s[i] as int + 32 else t[i] == s[i]
  {
    if s == [] then ""
    else [if 'A' <= s[0] <= 'Z' then s[0] - 'A' + 'a' else s[0]] + ToLower(s[1..])
  }

  /** strings.SplitN(s, sep, 2): the parts before and after the first separator, if there is one. */
  function CutFirst(s: string, sep: char): (parts: (string, string))
    requires sep in s
    ensures sep !in parts.0 && s == parts.0 + [sep] + parts.1
  {
    if s[0] == sep then
      assert s == [] + [sep] + s[1..];
      ("", s[1..])
    else
      var (before, after) := CutFirst(s[1..], sep);
      ([s[0]] + before, after)
  }

  // ---- format.UserTag ----

  /** The key every registry uses for a user of a node. */
  function UserTag(tag: string, uuid: string): string {
    tag + "|" + uuid
  }

  /** The key determines node and user as soon as user identifiers hold no bar; the node's tag may hold bars. */
  lemma UserTagInjective(tag1: string, uuid1: string, tag2: string, uuid2: string)
    requires '|' !in uuid1 && '|' !in uuid2
    requires UserTag(tag1, uuid1) == UserTag(tag2, uuid2)
    ensures tag1 == tag2 && uuid1 == uuid2
  {
    var s := UserTag(tag1, uuid1);
    assert s[|tag1|] == '|' && s[|tag2|] == '|';
    assert s[|tag1| + 1..] == uuid1 && s[|tag2| + 1..] == uuid2;
    if |tag1| != |tag2| {
      assert false;
    }
    assert tag1 == s[..|tag1|] == tag2;
    assert uuid1 == s[|tag1| + 1..] == uuid2;
  }

  lemma {:induction false} CutLast(s: string, c: char) returns (before: string, after: string)
    requires c in s
    ensures c !in after && s == before + [c] + after
  {
    var n := |s| - 1;
    if s[n] == c {
      before, after := s[..n], "";
    } else {
      before, after := CutLast(s[..n], c);
      after := after + [s[n]];
    }
  }

  /** The key of a node and a user stands for no other pair with a bar-free uuid exactly when the uuid is bar-free
      itself. */
  lemma UserTagDeterminesExactly(tag: string, uuid: string)
    ensures (forall t, u | '|' !in u && UserTag(t, u) == UserTag(tag, uuid) :: t == tag && u == uuid) <==> '|' !in uuid
  {
    if '|' in uuid {
      var before, after := CutLast(uuid, '|');
      var other := tag + "|" + before;
      assert UserTag(other, after) == UserTag(tag, uuid) by {
        assert tag + "|" + (before + ['|'] + after) == tag + "|" + before + "|" + after;
      }
    } else {
      forall t, u | '|' !in u && UserTag(t, u) == UserTag(tag, uuid) ensures t == tag && u == uuid {
        UserTagInjective(t, u, tag, uuid);
      }
    }
  }

  lemma UserTagCollides()
    ensures UserTag("a|b", "c") == UserTag("a", "b|c")
  {
    assert UserTag("a|b", "c") == "a|b|c" == UserTag("a", "b|c");
  }
}
