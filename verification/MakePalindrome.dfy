/** CodeForces 2267A: the cheapest way to make a string a palindrome when the only edit is to overwrite a
    character, for one coin, with a given character. */
module MakePalindrome {
  predicate Palindrome(s: string) {
    forall k :: 0 <= k < |s| ==> s[k] == s[|s| - 1 - k]
  }

  // t comes from s by overwriting some characters with c.
  predicate Overwritten(s: string, t: string, c: char) {
    |t| == |s| && forall k :: 0 <= k < |s| ==> t[k] == s[k] || t[k] == c
  }

  // The positions paid for.
  function Changed(s: string, t: string): set<int> {
    set k | 0 <= k < |s| && k < |t| && t[k] != s[k]
  }

  function Cost(s: string, t: string): nat {
    |Changed(s, t)|
  }

  // The string the program is after: c on both sides wherever the two sides disagree.
  function Mended(s: string, c: char): (t: string)
    ensures Palindrome(t) && Overwritten(s, t, c)
  {
    seq(|s|, k requires 0 <= k < |s| => if s[k] == s[|s| - 1 - k] then s[k] else c)
  }

  // Every solution pays for all the positions that Mended pays for.
  lemma EveryChangeIsForced(s: string, t: string, c: char)
    requires Overwritten(s, t, c) && Palindrome(t)
    ensures Changed(s, Mended(s, c)) <= Changed(s, t)
  {
    forall k | k in Changed(s, Mended(s, c)) ensures t[k] != s[k] {
      assert t[k] == t[|s| - 1 - k];
      assert t[|s| - 1 - k] == s[|s| - 1 - k] || t[|s| - 1 - k] == c;
    }
  }

  lemma SubsetIsNoLarger(a: set<int>, b: set<int>)
    requires a <= b
    ensures |a| <= |b|
  {
    assert b == a + (b - a);
  }

  // So Mended is cheapest, and it is the only solution at that price.
  lemma MendedIsCheapest(s: string, c: char)
    ensures forall t :: Overwritten(s, t, c) && Palindrome(t) ==> Cost(s, Mended(s, c)) <= Cost(s, t)
    ensures forall t :: Overwritten(s, t, c) && Palindrome(t) && Cost(s, t) == Cost(s, Mended(s, c))
                        ==> t == Mended(s, c)
  {
    var m := Mended(s, c);
    forall t | Overwritten(s, t, c) && Palindrome(t)
      ensures Cost(s, m) <= Cost(s, t) && (Cost(s, t) == Cost(s, m) ==> t == m)
    {
      EveryChangeIsForced(s, t, c);
      SubsetIsNoLarger(Changed(s, m), Changed(s, t));
      if Cost(s, t) == Cost(s, m) {
        assert Changed(s, t) == Changed(s, m) + (Changed(s, t) - Changed(s, m));
        assert Changed(s, t) == Changed(s, m);
        forall k | 0 <= k < |s| ensures t[k] == m[k] {
          assert k in Changed(s, t) <==> k in Changed(s, m);
        }
      }
    }
  }

  lemma CostIsZeroIffPalindrome(s: string, c: char)
    ensures Cost(s, Mended(s, c)) == 0 <==> Palindrome(s)
  {
    var m := Mended(s, c);
    if Palindrome(s) {
      assert Changed(s, m) == {};
    } else {
      assert m != s;
      var k :| 0 <= k < |s| && m[k] != s[k];
      assert k in Changed(s, m);
    }
  }

  method IsPalindrome(input: array<char>) returns (yes: bool)
    requires input.Length > 0
    ensures yes <==> Palindrome(input[..])
  {
    var left, right := 0, input.Length - 1;
    while left < right
      invariant 0 <= left && left + right == input.Length - 1 && left <= right + 1
      invariant forall k :: 0 <= k < left ==> input[k] == input[input.Length - 1 - k]
    {
      if input[left] == input[right] {
        left := left + 1;
        right := right - 1;
      } else {
        assert input[..][left] != input[..][|input[..]| - 1 - left];
        return false;
      }
    }
    forall k | 0 <= k < input.Length ensures input[k] == input[input.Length - 1 - k] {
      if k >= left && k > right {
        assert input[input.Length - 1 - k] == input[input.Length - 1 - (input.Length - 1 - k)];
      }
    }
    return true;
  }

  // Overwriting a character that still is the one of s costs a coin exactly when it changes it.
  lemma OneWrite(s: string, u: string, k: nat, x: char)
    requires |u| == |s| && k < |s| && u[k] == s[k]
    ensures Cost(s, u[k := x]) == Cost(s, u) + if x != s[k] then 1 else 0
  {
    if x == s[k] {
      assert u[k := x] == u;
    } else {
      assert Changed(s, u[k := x]) == Changed(s, u) + {k};
    }
  }

  // The body of the second loop: both sides of one pair agree afterwards, on replacementChar if they did not.
  method MendPair(replacementChar: char, text: array<char>, left: nat, right: nat) returns (coins: nat)
    requires left < right < text.Length
    modifies text
    ensures var was := old(text[..]);
      var x := if was[left] == was[right] then was[left] else replacementChar;
      var y := if was[left] == was[right] then was[right] else replacementChar;
      && text[..] == was[left := x][right := y]
      && coins == (if x != was[left] then 1 else 0) + (if y != was[right] then 1 else 0)
  {
    coins := 0;
    if text[left] != text[right] {
      if text[left] == replacementChar && text[right] != replacementChar {
        text[right] := replacementChar;
        coins := coins + 1;
      } else if text[left] != replacementChar && text[right] == replacementChar {
        text[left] := replacementChar;
        coins := coins + 1;
      } else {
        text[left] := replacementChar;
        text[right] := replacementChar;
        coins := coins + 2;
      }
    }
  }

  // u is s with the pairs outside [left, |s| - 1 - left] mended, for that many coins.
  ghost predicate MendedOutside(s: string, c: char, u: string, left: nat, coins: nat) {
    && |u| == |s| && coins == Cost(s, u)
    && (forall k :: 0 <= k < |s| && (k < left || |s| - 1 - left < k) ==> u[k] == Mended(s, c)[k])
    && (forall k :: left <= k <= |s| - 1 - left ==> u[k] == s[k])
  }

  lemma NothingMended(s: string, c: char)
    ensures MendedOutside(s, c, s, 0, 0)
    ensures Palindrome(s) ==> Mended(s, c) == s
  {
    assert Changed(s, s) == {};
  }

  lemma OnePairMore(s: string, c: char, u: string, left: nat, coins: nat)
    requires left < |s| - 1 - left && MendedOutside(s, c, u, left, coins)
    ensures var right := |s| - 1 - left;
      var x := if s[left] == s[right] then s[left] else c;
      var y := if s[left] == s[right] then s[right] else c;
      var paid := (if x != s[left] then 1 else 0) + (if y != s[right] then 1 else 0);
      MendedOutside(s, c, u[left := x][right := y], left + 1, coins + paid)
  {
    hide Cost;
    var right := |s| - 1 - left;
    var x := if s[left] == s[right] then s[left] else c;
    OneWrite(s, u, left, x);
    OneWrite(s, u[left := x], right, x);
  }

  lemma AllMended(s: string, c: char, u: string, left: nat, coins: nat)
    requires left >= |s| - 1 - left && MendedOutside(s, c, u, left, coins)
    ensures u == Mended(s, c)
  {
  }

  lemma CostSoFar(s: string, c: char, u: string, left: nat, coins: nat)
    requires MendedOutside(s, c, u, left, coins)
    ensures |u| == |s| && coins == Cost(s, u)
    ensures left < |s| - 1 - left ==> u[left] == s[left] && u[|s| - 1 - left] == s[|s| - 1 - left]
  {
  }

  method Solve(replacementChar: char, text: array<char>) returns (minCoinsSpent: nat)
    requires text.Length > 0
    modifies text
    ensures Palindrome(text[..]) && Overwritten(old(text[..]), text[..], replacementChar)
    ensures minCoinsSpent == Cost(old(text[..]), text[..])
    ensures forall t :: Overwritten(old(text[..]), t, replacementChar) && Palindrome(t)
                        ==> minCoinsSpent <= Cost(old(text[..]), t)
  {
    hide Mended, Cost, Palindrome, Overwritten, MendedOutside;
    ghost var s := text[..];
    minCoinsSpent := 0;
    NothingMended(s, replacementChar);
    MendedIsCheapest(s, replacementChar);
    var palindrome := IsPalindrome(text);
    if palindrome {
      CostSoFar(s, replacementChar, s, 0, 0);
      return;
    }
    var left, right := 0, text.Length - 1;
    while left < right
      invariant 0 <= left && left + right == text.Length - 1 && left <= right + 1
      invariant MendedOutside(s, replacementChar, text[..], left, minCoinsSpent)
    {
      OnePairMore(s, replacementChar, text[..], left, minCoinsSpent);
      CostSoFar(s, replacementChar, text[..], left, minCoinsSpent);
      var coins := MendPair(replacementChar, text, left, right);
      minCoinsSpent := minCoinsSpent + coins;
      left := left + 1;
      right := right - 1;
    }
    AllMended(s, replacementChar, text[..], left, minCoinsSpent);
    CostSoFar(s, replacementChar, text[..], left, minCoinsSpent);
  }
}
