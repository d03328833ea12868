/** Module file names as the route check compares them: upper-cased, and for the
    module's own name with ".LS3" replaced by ".ST3". */
module Names {

  function UpperChar(c: char): char
  {
    if 'a' <= c <= 'z' then (c as int - 32) as char else c
  }

  predicate IsUpper(s: string)
  {
    forall i :: 0 <= i < |s| ==> !('a' <= s[i] <= 'z')
  }

  /** `str.upper()` on the ASCII letters: the result has no lower-case letter
      left, and a name that has none is returned unchanged. */
  function Upper(s: string): (r: string)
    ensures |r| == |s|
    ensures forall i :: 0 <= i < |s| ==> r[i] == UpperChar(s[i])
    ensures IsUpper(r)
    ensures IsUpper(s) ==> r == s
  {
    var r := seq(|s|, i requires 0 <= i < |s| => UpperChar(s[i]));
    assert IsUpper(s) ==> r == s by {
      if IsUpper(s) {
        assert forall i :: 0 <= i < |s| ==> r[i] == s[i];
      }
    }
    r
  }

  /** ".LS3" occurs in `s` starting at index `i`. */
  predicate Ls3At(s: string, i: int)
  {
    0 <= i && i + 4 <= |s| && s[i..i + 4] == ".LS3"
  }

  /** `str.replace(".LS3", ".ST3")`: every occurrence, scanned from the left. */
  function ReplaceLs3(s: string): (r: string)
    ensures |r| == |s|
    decreases |s|
  {
    if |s| < 4 then s
    else if s[..4] == ".LS3" then ".ST3" + ReplaceLs3(s[4..])
    else [s[0]] + ReplaceLs3(s[1..])
  }

  /** `str_dateiname`: the name a placement's module must have to count as this module. */
  function ModuleName(dateiname: string): string
  {
    ReplaceLs3(Upper(dateiname))
  }

  lemma ReplaceHead(t: string)
    requires |t| > 0
    ensures ReplaceLs3(t)[0] == if Ls3At(t, 0) then '.' else t[0]
    ensures !Ls3At(t, 0) ==> ReplaceLs3(t) == [t[0]] + ReplaceLs3(t[1..])
  {
    if |t| < 4 {
      assert ReplaceLs3(t[1..]) == t[1..];
    }
  }

  lemma Ls3AtChars(s: string, i: int)
    ensures Ls3At(s, i) <==>
      0 <= i && i + 4 <= |s| && s[i] == '.' && s[i + 1] == 'L' && s[i + 2] == 'S' && s[i + 3] == '3'
  {
    if 0 <= i && i + 4 <= |s| {
      assert s[i..i + 4] == [s[i], s[i + 1], s[i + 2], s[i + 3]];
    }
  }

  /** A replaced text that does not start with '.' starts with a copied character. */
  lemma CopyStep(t: string)
    requires |t| > 0
    ensures ReplaceLs3(t)[0] != '.' ==>
      && !Ls3At(t, 0)
      && ReplaceLs3(t)[0] == t[0]
      && ReplaceLs3(t)[1..] == ReplaceLs3(t[1..])
  {
    ReplaceHead(t);
  }

  /** Where the scan copies a character, the copy cannot start a new ".LS3". */
  lemma CopiedHeadStartsNoLs3(s: string)
    requires |s| >= 4 && !Ls3At(s, 0)
    ensures !Ls3At(ReplaceLs3(s), 0)
  {
    var r := ReplaceLs3(s);
    var t := s[1..];
    var u := t[1..];
    var w := u[1..];
    ReplaceHead(s);
    assert r[1..] == ReplaceLs3(t);
    CopyStep(t);
    CopyStep(u);
    CopyStep(w);
    assert s[1] == t[0] && s[2] == u[0] && s[3] == w[0];
    Ls3AtChars(s, 0);
    Ls3AtChars(r, 0);
  }

  /** A ".LS3" at position `i` of `r`, past a prefix of length `n`, is one at `i - n` of the rest. */
  lemma Ls3Shift(r: string, rest: string, n: nat, i: int)
    requires |r| == n + |rest| && r[n..] == rest && i >= n && !Ls3At(rest, i - n)
    ensures !Ls3At(r, i)
  {
    if i + 4 <= |r| {
      assert r[i..i + 4] == rest[i - n..i - n + 4];
    }
  }

  /** A ".LS3" at `j`, at or past `n`, is one at `j - n` of `s[n..]`, and conversely. */
  lemma Ls3AtShift(s: string, n: nat, j: int)
    requires n <= |s| && j >= n
    ensures Ls3At(s, j) <==> Ls3At(s[n..], j - n)
  {
    if j + 4 <= |s| {
      assert s[j..j + 4] == s[n..][j - n..j - n + 4];
    }
  }

  /** The character `str.replace(".LS3", ".ST3")` leaves at index `i` of `s`. */
  function ReplacedChar(s: string, i: int): char
    requires 0 <= i < |s|
  {
    if Ls3At(s, i - 1) then 'S' else if Ls3At(s, i - 2) then 'T' else s[i]
  }

  /** A leading ".LS3" is replaced as a whole, and no other ".LS3" starts inside it. */
  lemma BlockHead(s: string)
    requires Ls3At(s, 0)
    ensures ReplaceLs3(s) == ".ST3" + ReplaceLs3(s[4..])
    ensures s[0] == '.' && s[1] == 'L' && s[2] == 'S' && s[3] == '3'
    ensures !Ls3At(s, 1) && !Ls3At(s, 2) && !Ls3At(s, 3)
  {
    Ls3AtChars(s, 0);
    Ls3AtChars(s, 1);
    Ls3AtChars(s, 2);
    Ls3AtChars(s, 3);
  }

  /** Inside a leading ".LS3" block. */
  lemma ReplaceBlockInside(s: string, i: int)
    requires Ls3At(s, 0) && 0 <= i < 4
    ensures ReplaceLs3(s)[i] == ReplacedChar(s, i)
  {
    BlockHead(s);
    var r := ReplaceLs3(s);
    assert r[i] == ".ST3"[i];
    if i == 0 {
      assert r[0] == '.' && ReplacedChar(s, 0) == s[0];
    } else if i == 1 {
      assert r[1] == 'S' && ReplacedChar(s, 1) == 'S';
    } else if i == 2 {
      assert r[2] == 'T' && ReplacedChar(s, 2) == 'T';
    } else {
      assert r[3] == '3' && ReplacedChar(s, 3) == s[3];
    }
  }

  /** Past a leading ".LS3" block, by the rest's characters. */
  lemma ReplaceBlockPast(s: string, i: int)
    requires Ls3At(s, 0) && 4 <= i < |s|
    requires ReplaceLs3(s[4..])[i - 4] == ReplacedChar(s[4..], i - 4)
    ensures ReplaceLs3(s)[i] == ReplacedChar(s, i)
  {
    var t := s[4..];
    BlockHead(s);
    assert ReplaceLs3(s)[i] == ReplaceLs3(t)[i - 4];
    assert t[i - 4] == s[i];
    assert Ls3At(s, i - 1) == Ls3At(t, i - 5) by {
      if i - 1 >= 4 { Ls3AtShift(s, 4, i - 1); }
    }
    assert Ls3At(s, i - 2) == Ls3At(t, i - 6) by {
      if i - 2 >= 4 { Ls3AtShift(s, 4, i - 2); }
    }
  }

  /** Past a copied first character, by the rest's characters. */
  lemma CopyAt(s: string, i: int)
    requires |s| >= 4 && !Ls3At(s, 0) && 1 <= i < |s|
    requires ReplaceLs3(s[1..])[i - 1] == ReplacedChar(s[1..], i - 1)
    ensures ReplaceLs3(s)[i] == ReplacedChar(s, i)
  {
    var t := s[1..];
    ReplaceHead(s);
    assert ReplaceLs3(s)[i] == ReplaceLs3(t)[i - 1];
    assert t[i - 1] == s[i];
    assert Ls3At(s, i - 1) == Ls3At(t, i - 2) by {
      if i - 1 >= 1 { Ls3AtShift(s, 1, i - 1); }
    }
    assert Ls3At(s, i - 2) == Ls3At(t, i - 3) by {
      if i - 2 >= 1 { Ls3AtShift(s, 1, i - 2); }
    }
  }

  lemma {:induction false} ReplaceLs3At(s: string, i: int)
    requires 0 <= i < |s|
    ensures ReplaceLs3(s)[i] == ReplacedChar(s, i)
    decreases |s|
  {
    if |s| < 4 {
      assert ReplaceLs3(s) == s;
    } else if Ls3At(s, 0) {
      if i >= 4 {
        ReplaceLs3At(s[4..], i - 4);
        ReplaceBlockPast(s, i);
      } else {
        ReplaceBlockInside(s, i);
      }
    } else {
      if i >= 1 {
        ReplaceLs3At(s[1..], i - 1);
        CopyAt(s, i);
      } else {
        ReplaceHead(s);
      }
    }
  }

  /** Character by character: the two letters inside every ".LS3" block become
      "ST" and every other character is kept. Occurrences cannot overlap, so
      the scan from the left replaces each of them. */
  lemma ReplaceLs3Chars(s: string)
    ensures forall i :: 0 <= i < |s| ==>
      ReplaceLs3(s)[i] == if Ls3At(s, i - 1) then 'S' else if Ls3At(s, i - 2) then 'T' else s[i]
  {
    forall i | 0 <= i < |s|
      ensures ReplaceLs3(s)[i] == ReplacedChar(s, i)
    {
      ReplaceLs3At(s, i);
    }
  }

  /** After the replacement no ".LS3" is left, not even one formed across a
      replaced block. */
  lemma {:induction false} ReplaceLeavesNoLs3(s: string, i: int)
    ensures !Ls3At(ReplaceLs3(s), i)
    decreases |s|
  {
    var r := ReplaceLs3(s);
    if |s| < 4 || i < 0 || i + 4 > |r| {
    } else if Ls3At(s, 0) {
      var rest := ReplaceLs3(s[4..]);
      assert r == ".ST3" + rest;
      if i >= 4 {
        ReplaceLeavesNoLs3(s[4..], i - 4);
        assert r[4..] == rest;
        Ls3Shift(r, rest, 4, i);
      } else {
        Ls3AtChars(r, i);
      }
    } else if i >= 1 {
      var rest := ReplaceLs3(s[1..]);
      ReplaceHead(s);
      ReplaceLeavesNoLs3(s[1..], i - 1);
      assert r[1..] == rest;
      Ls3Shift(r, rest, 1, i);
    } else {
      CopiedHeadStartsNoLs3(s);
    }
  }

  lemma {:induction false} ReplaceKeepsUpper(s: string)
    requires IsUpper(s)
    ensures IsUpper(ReplaceLs3(s))
    decreases |s|
  {
    if |s| < 4 {
    } else if s[..4] == ".LS3" {
      ReplaceKeepsUpper(s[4..]);
      assert ReplaceLs3(s) == ".ST3" + ReplaceLs3(s[4..]);
    } else {
      ReplaceKeepsUpper(s[1..]);
      assert ReplaceLs3(s) == [s[0]] + ReplaceLs3(s[1..]);
    }
  }

  lemma {:induction false} ReplaceWithoutLs3(s: string)
    requires forall i :: !Ls3At(s, i)
    ensures ReplaceLs3(s) == s
    decreases |s|
  {
    if |s| >= 4 {
      assert !Ls3At(s, 0);
      forall i ensures !Ls3At(s[1..], i) {
        assert !Ls3At(s, i + 1);
        if 0 <= i && i + 5 <= |s| {
          assert s[1..][i..i + 4] == s[i + 1..i + 5];
        }
      }
      ReplaceWithoutLs3(s[1..]);
    }
  }

  /** Normalising an already normalised module name changes nothing. */
  lemma ModuleNameIdempotent(d: string)
    ensures ModuleName(ModuleName(d)) == ModuleName(d)
    ensures IsUpper(ModuleName(d))
  {
    var n := ModuleName(d);
    ReplaceKeepsUpper(Upper(d));
    forall i ensures !Ls3At(n, i) {
      ReplaceLeavesNoLs3(Upper(d), i);
    }
    ReplaceWithoutLs3(n);
  }
}
