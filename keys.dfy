/**
 * Object-map key conventions shared by both presets: decimal rendering of
 * indices, key prefixes, and the "shortest key starting with Robot-k" lookup
 * that both RescueInteractor.locateBots and SoccerInteractor.startUp perform.
 */
module Keys {
  import opened Wrappers

  predicate IsDigit(c: char)
  {
    '0' <= c <= '9'
  }

  predicate AllDigits(s: string)
  {
    forall i :: 0 <= i < |s| ==> IsDigit(s[i])
  }

  function DigitChar(d: nat): (c: char)
    requires d < 10
    ensures IsDigit(c)
  {
    ('0' as int + d) as char
  }

  function DigitValue(c: char): (d: nat)
    requires IsDigit(c)
    ensures d < 10
  {
    c as int - '0' as int
  }

  /** Python's str(n) (and f-string rendering) of a non-negative integer. */
  function Digits(n: nat): (s: string)
    ensures |s| > 0 && AllDigits(s)
    ensures |s| == 1 <==> n < 10
    ensures s[0] == '0' <==> n == 0
  {
    if n < 10 then [DigitChar(n)] else Digits(n / 10) + [DigitChar(n % 10)]
  }

  /** Reads a string of decimal digits back as a number (Python's int(s)). */
  function ParseDigits(s: string): nat
    requires AllDigits(s)
  {
    if s == [] then 0 else ParseDigits(s[..|s| - 1]) * 10 + DigitValue(s[|s| - 1])
  }

  /** Rendering a number and reading it back gives the number. */
  lemma {:induction false} ParseDigitsRoundTrip(n: nat)
    ensures ParseDigits(Digits(n)) == n
  {
    if n >= 10 {
      var s := Digits(n / 10);
      var t := s + [DigitChar(n % 10)];
      assert t[..|t| - 1] == s;
      ParseDigitsRoundTrip(n / 10);
    }
  }

  /** Different numbers render differently, so index-built keys never collide. */
  lemma DigitsInjective(a: nat, b: nat)
    requires Digits(a) == Digits(b)
    ensures a == b
  {
    ParseDigitsRoundTrip(a);
    ParseDigitsRoundTrip(b);
  }

  /** A leading zero does not change the value read. */
  lemma {:induction false} ParseLeadingZero(s: string)
    requires AllDigits(s)
    ensures AllDigits("0" + s) && ParseDigits("0" + s) == ParseDigits(s)
  {
    var t := "0" + s;
    if s != [] {
      assert t[..|t| - 1] == "0" + s[..|s| - 1];
      ParseLeadingZero(s[..|s| - 1]);
    }
  }

  /**
   * Python's '{:02d}' format: at least two digits, zero-padded. Digits,
   * value, length and the absence of a leading zero from 10 on together
   * determine the text.
   */
  function Pad2(n: nat): (s: string)
    ensures |s| >= 2 && AllDigits(s) && ParseDigits(s) == n
    ensures |s| == if n < 10 then 2 else |Digits(n)|
    ensures |s| == 2 <==> n < 100
    ensures s[0] == '0' <==> n < 10
  {
    ParseDigitsRoundTrip(n);
    if n < 10 then
      ParseLeadingZero(Digits(n));
      "0" + Digits(n)
    else
      Digits(n)
  }

  function Pow10(k: nat): (p: nat)
    ensures p >= 1
  {
    if k == 0 then 1 else 10 * Pow10(k - 1)
  }

  lemma {:induction false} Pow10Monotone(a: nat, b: nat)
    requires a <= b
    ensures Pow10(a) <= Pow10(b)
  {
    if a < b {
      Pow10Monotone(a, b - 1);
    }
  }

  /** A number is smaller than ten to the power of its digit count. */
  lemma {:induction false} DigitsBound(n: nat)
    ensures n < Pow10(|Digits(n)|)
  {
    if n >= 10 {
      DigitsBound(n / 10);
    }
  }

  /**
   * A separator that occurs in neither head splits a key uniquely:
   * a + [sep] + x == b + [sep] + y with sep in neither a nor b forces a == b and x == y.
   */
  lemma SplitAtSeparator(a: string, x: string, b: string, y: string, sep: char)
    requires sep !in a && sep !in b
    requires a + [sep] + x == b + [sep] + y
    ensures a == b && x == y
  {
    var s := a + [sep] + x;
    assert s[|a|] == sep;
    assert forall i :: 0 <= i < |a| ==> s[i] == a[i];
    assert s == b + [sep] + y;
    assert s[|b|] == sep;
    assert forall i :: 0 <= i < |b| ==> s[i] == b[i];
    assert |a| == |b|;
    assert a == s[..|a|] == b;
    assert x == s[|a| + 1..] == y;
  }

  lemma DigitsHaveNoDash(n: nat)
    ensures '-' !in Digits(n)
  {
    var s := Digits(n);
    assert forall i :: 0 <= i < |s| ==> s[i] != '-';
  }

  /** The prefix every key of robot k starts with: f'Robot-{k}'. */
  function RobotPrefix(k: nat): string
  {
    "Robot-" + Digits(k)
  }

  /** The robot index reads back from the part of the prefix after "Robot-". */
  lemma RobotPrefixReadsBack(k: nat)
    ensures var p := RobotPrefix(k);
            |p| > 6 && p[..6] == "Robot-" && AllDigits(p[6..]) && ParseDigits(p[6..]) == k
  {
    ParseDigitsRoundTrip(k);
    assert RobotPrefix(k)[6..] == Digits(k);
  }

  /** The keys that start with p, in their original order (the possible_keys list). */
  function WithPrefix(keys: seq<string>, p: string): (r: seq<string>)
    ensures forall k :: k in r ==> k in keys && p <= k
    ensures forall k :: k in keys && p <= k ==> k in r
  {
    if keys == [] then []
    else
      var last := keys[|keys| - 1];
      assert keys == keys[..|keys| - 1] + [last];
      WithPrefix(keys[..|keys| - 1], p) + (if p <= last then [last] else [])
  }

  /**
   * Index of the first entry of minimal length: what a stable sort by length
   * followed by taking element 0 selects.
   */
  function ShortestIndex(ks: seq<string>): (i: nat)
    requires |ks| > 0
    ensures i < |ks|
    ensures forall j :: 0 <= j < |ks| ==> |ks[i]| <= |ks[j]|
    ensures forall j :: 0 <= j < i ==> |ks[j]| > |ks[i]|
  {
    if |ks| == 1 then 0
    else
      var i := ShortestIndex(ks[..|ks| - 1]);
      if |ks[|ks| - 1]| < |ks[i]| then |ks| - 1 else i
  }

  /**
   * The key chosen among those starting with p: the shortest, ties going to
   * the earliest; None when no key starts with p.
   */
  function FindKey(keys: seq<string>, p: string): (r: Option<string>)
    ensures r.None? ==> forall key :: key in keys ==> !(p <= key)
    ensures r.Some? ==> r.value in keys && p <= r.value
    ensures r.Some? ==> forall key :: key in keys && p <= key ==> |r.value| <= |key|
  {
    if keys == [] then None
    else
      var last := keys[|keys| - 1];
      var r := FindKey(keys[..|keys| - 1], p);
      assert forall key :: key in keys <==> key in keys[..|keys| - 1] || key == last;
      if !(p <= last) then r
      else if r.None? || |last| < |r.value| then Some(last)
      else r
  }

  /** The object key chosen for robot index k. */
  function FindRobot(keys: seq<string>, k: nat): (r: Option<string>)
    ensures r.None? <==> forall key :: key in keys ==> !(RobotPrefix(k) <= key)
    ensures r.Some? ==> r.value in keys && RobotPrefix(k) <= r.value
  {
    FindKey(keys, RobotPrefix(k))
  }

  /** The for-loop that collects possible_keys, iterating the keys in order. */
  method MatchingKeys(keys: seq<string>, p: string) returns (possible: seq<string>)
    ensures possible == WithPrefix(keys, p)
  {
    possible := [];
    for i := 0 to |keys|
      invariant possible == WithPrefix(keys[..i], p)
    {
      assert keys[..i + 1][..i] == keys[..i];
      if p <= keys[i] {
        possible := possible + [keys[i]];
      }
    }
    assert keys[..|keys|] == keys;
  }

  /**
   * The loop-and-sort formulation (collect the matching keys in order, stable
   * sort by length, take the first) selects the same key as FindKey.
   */
  lemma {:induction false} FindKeyIsFirstShortest(keys: seq<string>, p: string)
    ensures var ws := WithPrefix(keys, p);
            FindKey(keys, p) == if ws == [] then None else Some(ws[ShortestIndex(ws)])
  {
    if keys != [] {
      var init, last := keys[..|keys| - 1], keys[|keys| - 1];
      FindKeyIsFirstShortest(init, p);
      var ws0, ws := WithPrefix(init, p), WithPrefix(keys, p);
      if p <= last {
        assert ws == ws0 + [last];
        if ws0 != [] {
          assert ws[..|ws| - 1] == ws0;
        }
      }
    }
  }

  function MaxLen(keys: seq<string>): (m: nat)
    ensures forall k :: k in keys ==> |k| <= m
  {
    if keys == [] then 0
    else
      var m := MaxLen(keys[1..]);
      if |keys[0]| > m then |keys[0]| else m
  }

  /**
   * Only finitely many robot indices can match: an index whose prefix matches
   * some key has fewer digits than that key, which bounds the discovery loop.
   */
  lemma FoundIndexBounded(keys: seq<string>, k: nat)
    requires FindRobot(keys, k).Some?
    ensures k < Pow10(MaxLen(keys))
  {
    var key := FindRobot(keys, k).value;
    assert |RobotPrefix(k)| <= |key|;
    DigitsBound(k);
    Pow10Monotone(|Digits(k)|, MaxLen(keys));
  }

  /**
   * The robots discovered from index `from` on: one per consecutive index
   * that has a matching key, stopping at the first index without one.
   * LocatedAt and LocatedEnd state what it holds.
   */
  function Located(keys: seq<string>, from: nat): seq<string>
    decreases Pow10(MaxLen(keys)) - from
  {
    match FindRobot(keys, from)
    case None => []
    case Some(key) =>
      FoundIndexBounded(keys, from);
      [key] + Located(keys, from + 1)
  }

  /** One step of the discovery loop: a found index contributes its key. */
  lemma LocatedStep(keys: seq<string>, from: nat)
    requires FindRobot(keys, from).Some?
    ensures Located(keys, from) == [FindRobot(keys, from).value] + Located(keys, from + 1)
  {
    FoundIndexBounded(keys, from);
  }

  /**
   * One round of locateBots in the source's own terms: with the keys that
   * start with Robot-from collected in order, none ends the list, otherwise
   * the first shortest of them is the next robot.
   */
  lemma LocatedNext(keys: seq<string>, from: nat, possible: seq<string>)
    requires possible == WithPrefix(keys, RobotPrefix(from))
    ensures possible == [] ==> Located(keys, from) == []
    ensures possible != [] ==>
              from < Pow10(MaxLen(keys)) &&
              possible[ShortestIndex(possible)] in keys &&
              Located(keys, from) == [possible[ShortestIndex(possible)]] + Located(keys, from + 1)
  {
    FindKeyIsFirstShortest(keys, RobotPrefix(from));
    if possible != [] {
      FoundIndexBounded(keys, from);
      LocatedStep(keys, from);
    }
  }

  /** Extending the robots found so far by the next one keeps them a prefix of the full list. */
  lemma LocatedAppend(keys: seq<string>, found: seq<string>, from: nat, all: seq<string>, key: string)
    requires found + Located(keys, from) == all
    requires Located(keys, from) == [key] + Located(keys, from + 1)
    ensures (found + [key]) + Located(keys, from + 1) == all
  {
  }

  /** Every robot found is a key of the object map. */
  lemma {:induction false} LocatedInKeys(keys: seq<string>, from: nat)
    ensures forall r :: r in Located(keys, from) ==> r in keys
    decreases Pow10(MaxLen(keys)) - from
  {
    if FindRobot(keys, from).Some? {
      FoundIndexBounded(keys, from);
      LocatedStep(keys, from);
      LocatedInKeys(keys, from + 1);
    }
  }

  /** Entry i of Located(keys, from) is the key chosen for index k == from + i. */
  lemma {:induction false} LocatedAt(keys: seq<string>, from: nat, i: nat, k: nat)
    requires i < |Located(keys, from)| && k == from + i
    ensures FindRobot(keys, k) == Some(Located(keys, from)[i])
    decreases i
  {
    assert FindRobot(keys, from).Some?;
    FoundIndexBounded(keys, from);
    if i > 0 {
      LocatedAt(keys, from + 1, i - 1, k);
    }
  }

  /** The index k just past the end of Located(keys, from) has no matching key. */
  lemma {:induction false} LocatedEnd(keys: seq<string>, from: nat, k: nat)
    requires k == from + |Located(keys, from)|
    ensures FindRobot(keys, k).None?
    decreases Pow10(MaxLen(keys)) - from
  {
    if FindRobot(keys, from).Some? {
      FoundIndexBounded(keys, from);
      LocatedEnd(keys, from + 1, k);
    }
  }

  /**
   * Index of the last occurrence of x in s: when the same object is listed
   * twice, the last write to it in an in-order loop is the one that stays.
   */
  function LastIndexOf(s: seq<string>, x: string): (i: nat)
    requires x in s
    ensures i < |s| && s[i] == x
    ensures forall j :: i < j < |s| ==> s[j] != x
  {
    if s[|s| - 1] == x then |s| - 1
    else
      assert x in s[..|s| - 1] by {
        var j :| 0 <= j < |s| && s[j] == x;
        assert s[..|s| - 1][j] == x;
      }
      LastIndexOf(s[..|s| - 1], x)
  }

  /** Appending y to s moves the last occurrence of y to the end and keeps the others. */
  lemma LastIndexOfSnoc(s: seq<string>, y: string, x: string)
    requires x in s + [y]
    ensures LastIndexOf(s + [y], x) == if x == y then |s| else LastIndexOf(s, x)
  {
    assert (s + [y])[..|s|] == s;
  }

  /** Without repeated entries, every entry is its own last occurrence. */
  lemma LastIndexOfDistinct(s: seq<string>, i: nat)
    requires i < |s|
    requires forall j, k :: 0 <= j < k < |s| ==> s[j] != s[k]
    ensures LastIndexOf(s, s[i]) == i
  {
  }

  /**
   * Prefix matching is not index matching: when there is no key for Robot-1
   * but there is one for Robot-10, index 1 is given Robot-10's object.
   */
  lemma PrefixCrossesIndices()
    ensures FindRobot(["Robot-0", "Robot-10"], 1) == Some("Robot-10")
    ensures Located(["Robot-0", "Robot-10"], 0) == ["Robot-0", "Robot-10"]
  {
    var keys := ["Robot-0", "Robot-10"];
    ExampleLookups();
    LocatedStep(keys, 0);
    LocatedStep(keys, 1);
    assert Located(keys, 2) == [];
  }

  /** The keys chosen for indices 0, 1 and 2 of the example above. */
  lemma ExampleLookups()
    ensures FindRobot(["Robot-0", "Robot-10"], 0) == Some("Robot-0")
    ensures FindRobot(["Robot-0", "Robot-10"], 1) == Some("Robot-10")
    ensures FindRobot(["Robot-0", "Robot-10"], 2) == None
  {
    assert RobotPrefix(0) == "Robot-0" && RobotPrefix(1) == "Robot-1" && RobotPrefix(2) == "Robot-2";
    assert "Robot-1" <= "Robot-10";
    assert !("Robot-0" <= "Robot-10") by { assert "Robot-0"[6] != "Robot-10"[6]; }
    assert !("Robot-1" <= "Robot-0") by { assert "Robot-1"[6] != "Robot-0"[6]; }
    assert !("Robot-2" <= "Robot-0") by { assert "Robot-2"[6] != "Robot-0"[6]; }
    assert !("Robot-2" <= "Robot-10") by { assert "Robot-2"[6] != "Robot-10"[6]; }
  }
}
