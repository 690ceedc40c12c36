/** The text-rewriting half of `parseFloat`: a Brazilian money string such as
    "R$ 1.234,56" is turned into "1234.56", the form a float parser accepts.
    Parsing the number itself is not part of this module. */
module MoneyText {

  /** True when the currency symbol "R$" starts at index `i` of `s`. */
  predicate SymbolAt(s: string, i: int) {
    0 <= i && i + 1 < |s| && s[i] == 'R' && s[i + 1] == '$'
  }

  /** Every character of `t` is a space (only ' ', not tabs or newlines). */
  predicate SpacesOnly(t: string) {
    forall k :: 0 <= k < |t| ==> t[k] == ' '
  }

  /** Occurrences of character `c` in `s`. */
  function Count(s: string, c: char): nat {
    multiset(s)[c]
  }

  // ---------------------------------------------------------------------
  // strings.Replace(v, "R$", "", 1)
  // ---------------------------------------------------------------------

  /** Deletes the first occurrence of "R$"; later ones stay. */
  function RemoveSymbol(s: string): (r: string)
    ensures |r| == |s| || |r| == |s| - 2
  {
    if |s| < 2 then s
    else if s[0] == 'R' && s[1] == '$' then s[2..]
    else [s[0]] + RemoveSymbol(s[1..])
  }

  /** Without a currency symbol the string is left alone. */
  lemma {:induction false} RemoveSymbolAbsent(s: string)
    requires forall j :: 0 <= j < |s| ==> !SymbolAt(s, j)
    ensures RemoveSymbol(s) == s
  {
    if |s| >= 2 {
      assert !SymbolAt(s, 0);
      forall j | 0 <= j < |s| - 1 ensures !SymbolAt(s[1..], j) {
        assert !SymbolAt(s, j + 1);
      }
      RemoveSymbolAbsent(s[1..]);
      assert s == [s[0]] + s[1..];
    }
  }

  /** With a currency symbol at `i` and none before it, exactly the two
      characters at `i` and `i + 1` are removed. */
  lemma {:induction false} RemoveSymbolFirst(s: string, i: nat)
    requires SymbolAt(s, i)
    requires forall j :: 0 <= j < i ==> !SymbolAt(s, j)
    ensures RemoveSymbol(s) == s[..i] + s[i + 2..]
  {
    if i > 0 {
      assert !SymbolAt(s, 0);
      var t := s[1..];
      assert SymbolAt(t, i - 1);
      forall j | 0 <= j < i - 1 ensures !SymbolAt(t, j) {
        assert !SymbolAt(s, j + 1);
      }
      RemoveSymbolFirst(t, i - 1);
      calc {
        RemoveSymbol(s);
        [s[0]] + RemoveSymbol(t);
        [s[0]] + (t[..i - 1] + t[i + 1..]);
        { assert t[..i - 1] == s[1..i] && t[i + 1..] == s[i + 2..]; }
        [s[0]] + (s[1..i] + s[i + 2..]);
        { assert [s[0]] + s[1..i] == s[..i]; }
        s[..i] + s[i + 2..];
      }
    }
  }

  // ---------------------------------------------------------------------
  // strings.Trim(v, " ")
  // ---------------------------------------------------------------------

  /** A space followed by spaces is spaces. */
  lemma SpacesCons(t: string)
    requires t != [] && t[0] == ' ' && SpacesOnly(t[1..])
    ensures SpacesOnly(t)
  {
    forall k | 1 <= k < |t| ensures t[k] == ' ' {
      assert t[k] == t[1..][k - 1];
    }
  }

  /** Spaces followed by a space is spaces. */
  lemma SpacesSnoc(t: string)
    requires t != [] && t[|t| - 1] == ' ' && SpacesOnly(t[..|t| - 1])
    ensures SpacesOnly(t)
  {
    forall k | 0 <= k < |t| - 1 ensures t[k] == ' ' {
      assert t[k] == t[..|t| - 1][k];
    }
  }

  /** Strips the leading spaces. */
  function TrimLeft(s: string): (r: string)
    ensures |r| <= |s| && r == s[|s| - |r|..]
    ensures SpacesOnly(s[..|s| - |r|])
    ensures r == [] || r[0] != ' '
  {
    if s != [] && s[0] == ' ' then
      var r := TrimLeft(s[1..]);
      assert s[1..][..|s| - 1 - |r|] == s[1..|s| - |r|];
      SpacesCons(s[..|s| - |r|]);
      r
    else s
  }

  /** Strips the trailing spaces. */
  function TrimRight(s: string): (r: string)
    ensures |r| <= |s| && r == s[..|r|]
    ensures SpacesOnly(s[|r|..])
    ensures r == [] || r[|r| - 1] != ' '
  {
    if s != [] && s[|s| - 1] == ' ' then
      var r := TrimRight(s[..|s| - 1]);
      assert s[..|s| - 1][..|r|] == s[..|r|];
      assert s[..|s| - 1][|r|..] == s[|r|..][..|s| - 1 - |r|];
      SpacesSnoc(s[|r|..]);
      r
    else s
  }

  /** Strips leading and trailing spaces; what is left neither starts nor
      ends with a space. */
  function Trim(s: string): (r: string)
    ensures |r| <= |s|
    ensures r == [] || (r[0] != ' ' && r[|r| - 1] != ' ')
  {
    TrimRight(TrimLeft(s))
  }

  /** Spaces taken off the front and then off the back of what remained
      leave a middle piece of `s`. */
  lemma SpacesAround(s: string, left: string, r: string)
    requires |left| <= |s| && left == s[|s| - |left|..] && SpacesOnly(s[..|s| - |left|])
    requires |r| <= |left| && r == left[..|r|] && SpacesOnly(left[|r|..])
    ensures exists i, j :: 0 <= i <= j <= |s| && r == s[i..j] && SpacesOnly(s[..i]) && SpacesOnly(s[j..])
  {
    var i := |s| - |left|;
    var j := i + |r|;
    assert r == s[i..j];
    assert s[j..] == left[|r|..];
  }

  /** `s` is some spaces, then `Trim(s)`, then some spaces: only spaces are
      taken off, and only at the ends. */
  lemma TrimParts(s: string)
    ensures exists i, j :: 0 <= i <= j <= |s| && Trim(s) == s[i..j] && SpacesOnly(s[..i]) && SpacesOnly(s[j..])
  {
    SpacesAround(s, TrimLeft(s), Trim(s));
  }

  // ---------------------------------------------------------------------
  // strings.ReplaceAll(v, ".", "")
  // ---------------------------------------------------------------------

  /** Deletes every '.', keeping every other character. */
  function DeleteDots(s: string): (r: string)
    ensures '.' !in r
    ensures |r| <= |s|
  {
    if s == [] then []
    else if s[0] == '.' then DeleteDots(s[1..])
    else [s[0]] + DeleteDots(s[1..])
  }

  /** Exactly the dots go: every other character keeps its count. */
  lemma {:induction false} DeleteDotsCounts(s: string)
    ensures multiset(DeleteDots(s)) == multiset(s)['.' := 0]
  {
    if s != [] {
      DeleteDotsCounts(s[1..]);
      assert s == [s[0]] + s[1..];
    }
  }

  /** Deleting dots works piecewise, so the characters that remain keep their
      relative order. */
  lemma {:induction false} DeleteDotsAppend(a: string, b: string)
    ensures DeleteDots(a + b) == DeleteDots(a) + DeleteDots(b)
  {
    if a != [] {
      assert (a + b)[1..] == a[1..] + b;
      DeleteDotsAppend(a[1..], b);
    } else {
      assert a + b == b;
    }
  }

  /** A string without dots is left alone. */
  lemma {:induction false} DeleteDotsWithoutDots(s: string)
    requires '.' !in s
    ensures DeleteDots(s) == s
  {
    if s != [] {
      DeleteDotsWithoutDots(s[1..]);
      assert s == [s[0]] + s[1..];
    }
  }

  // ---------------------------------------------------------------------
  // strings.Replace(v, ",", ".", 1)
  // ---------------------------------------------------------------------

  /** The index of the first occurrence of `c` in `s`. */
  function FirstIndex(s: string, c: char): (i: nat)
    requires c in s
    ensures i < |s| && s[i] == c && c !in s[..i]
  {
    if s[0] == c then 0
    else
      var i := FirstIndex(s[1..], c);
      assert s[..i + 1] == [s[0]] + s[1..][..i];
      i + 1
  }

  /** Turns the first ',' into '.'; later commas stay. */
  function CommaToPoint(s: string): (r: string)
    ensures |r| == |s|
    ensures ',' !in s ==> r == s
    ensures ',' in s ==> r == s[FirstIndex(s, ',') := '.']
  {
    if s == [] then []
    else if s[0] == ',' then ['.'] + s[1..]
    else
      var rest := CommaToPoint(s[1..]);
      assert s == [s[0]] + s[1..];
      [s[0]] + rest
  }

  /** The character counts after `CommaToPoint`: one comma became one dot,
      all other characters are as before. */
  lemma CommaToPointCounts(s: string)
    requires ',' in s
    ensures multiset(CommaToPoint(s)) + multiset{','} == multiset(s) + multiset{'.'}
  {
    var i := FirstIndex(s, ',');
    UpdateCounts(s, i, '.');
  }

  /** Overwriting one character takes the old one off the multiset and puts
      the new one in. */
  lemma UpdateCounts(s: string, i: int, c: char)
    requires 0 <= i < |s|
    ensures multiset(s[i := c]) + multiset{s[i]} == multiset(s) + multiset{c}
  {
    var pre, post := s[..i], s[i + 1..];
    assert s == pre + [s[i]] + post;
    assert s[i := c] == pre + [c] + post;
  }

  // ---------------------------------------------------------------------
  // parseFloat, lines 322-333: the string handed to strconv.ParseFloat
  // ---------------------------------------------------------------------

  /** The input with its first "R$" removed and its outer spaces trimmed. */
  function Stripped(s: string): (t: string)
    ensures |t| <= |s|
    ensures t == [] || (t[0] != ' ' && t[|t| - 1] != ' ')
  {
    Trim(RemoveSymbol(s))
  }

  /** One ',' traded for one '.' in a multiset that had no '.'. */
  lemma CommaTraded(a: multiset<char>, b: multiset<char>)
    requires a + multiset{','} == b + multiset{'.'} && b['.'] == 0
    ensures a['.'] == 1 && a[','] + 1 == b[',']
    ensures forall c :: c != '.' && c != ',' ==> a[c] == b[c]
  {
    assert (a + multiset{','})['.'] == (b + multiset{'.'})['.'];
    assert (a + multiset{','})[','] == (b + multiset{'.'})[','];
    forall c | c != '.' && c != ',' ensures a[c] == b[c] {
      assert (a + multiset{','})[c] == (b + multiset{'.'})[c];
    }
  }

  /** With a comma and no dot in `d`, replacing the first comma leaves one
      point, one comma fewer and every other count as it was. */
  lemma CommaToPointTrades(d: string)
    requires ',' in d && '.' !in d
    ensures Count(CommaToPoint(d), '.') == 1 && Count(CommaToPoint(d), ',') + 1 == Count(d, ',')
    ensures forall c :: c != '.' && c != ',' ==> Count(CommaToPoint(d), c) == Count(d, c)
  {
    CommaToPointCounts(d);
    CommaTraded(multiset(CommaToPoint(d)), multiset(d));
  }

  /** The rewrite of the separators, chosen by which of them occur. With
      both, dots are thousands separators and go, and the first comma becomes
      the decimal point; with a comma only, the first comma becomes the point;
      with dots only, every dot is taken for a thousands separator and
      deleted; with neither, nothing changes. Whatever the branch, the
      result has a point exactly when there was a comma, one comma fewer,
      and every other character as often as before. */
  function Separators(t: string): (r: string)
    ensures |r| <= |t|
    ensures Count(r, '.') == if ',' in t then 1 else 0
    ensures Count(r, ',') == if ',' in t then Count(t, ',') - 1 else 0
    ensures forall c :: c != '.' && c != ',' ==> Count(r, c) == Count(t, c)
  {
    var hasComma, hasDot := ',' in t, '.' in t;
    DeleteDotsCounts(t);
    if hasComma && hasDot then
      var d := DeleteDots(t);
      assert multiset(d)[','] == multiset(t)[','];
      assert ',' in d by { assert multiset(d)[','] > 0; }
      CommaToPointTrades(d);
      CommaToPoint(d)
    else if hasComma then
      CommaToPointTrades(t);
      CommaToPoint(t)
    else if hasDot then
      assert multiset(t)[','] == 0;
      DeleteDots(t)
    else
      assert multiset(t)[','] == 0 && multiset(t)['.'] == 0;
      t
  }

  /** The string `parseFloat` hands to the float parser. It is never longer
      than the input and holds at most one point, which is there exactly
      when the stripped input held a comma. */
  function Normalize(s: string): (r: string)
    ensures |r| <= |s|
    ensures Count(r, '.') <= 1
    ensures ('.' in r) <==> (',' in Stripped(s))
  {
    Separators(Stripped(s))
  }

  // ---------------------------------------------------------------------
  // Order and examples
  // ---------------------------------------------------------------------

  /** The characters of `s` that are neither '.' nor ',', in order. */
  function WithoutSeparators(s: string): (r: string)
    ensures '.' !in r && ',' !in r
  {
    if s == [] then []
    else if s[0] == '.' || s[0] == ',' then WithoutSeparators(s[1..])
    else [s[0]] + WithoutSeparators(s[1..])
  }

  lemma {:induction false} DeleteDotsKeepsOthers(s: string)
    ensures WithoutSeparators(DeleteDots(s)) == WithoutSeparators(s)
  {
    if s != [] {
      DeleteDotsKeepsOthers(s[1..]);
      if s[0] != '.' {
        assert ([s[0]] + DeleteDots(s[1..]))[1..] == DeleteDots(s[1..]);
      }
    }
  }

  lemma {:induction false} CommaToPointKeepsOthers(s: string)
    ensures WithoutSeparators(CommaToPoint(s)) == WithoutSeparators(s)
  {
    if s != [] {
      if s[0] == ',' {
        assert (['.'] + s[1..])[1..] == s[1..];
      } else {
        CommaToPointKeepsOthers(s[1..]);
        assert ([s[0]] + CommaToPoint(s[1..]))[1..] == CommaToPoint(s[1..]);
      }
    }
  }

  /** Whatever branch is taken, the characters other than the separators
      come out in the order they came in. */
  lemma NormalizeKeepsOthers(s: string)
    ensures WithoutSeparators(Normalize(s)) == WithoutSeparators(Stripped(s))
  {
    var t := Stripped(s);
    assert Normalize(s) == Separators(t);
    if ',' in t && '.' in t {
      DeleteDotsKeepsOthers(t);
      CommaToPointKeepsOthers(DeleteDots(t));
    } else if ',' in t {
      CommaToPointKeepsOthers(t);
    } else if '.' in t {
      DeleteDotsKeepsOthers(t);
    }
  }

  /** Every character of `s` is a decimal digit. */
  predicate IsDigits(s: string) {
    forall k :: 0 <= k < |s| ==> '0' <= s[k] <= '9'
  }

  /** The first occurrence is the one with none before it. */
  lemma FirstIndexAt(s: string, c: char, i: nat)
    requires i < |s| && s[i] == c && c !in s[..i]
    ensures FirstIndex(s, c) == i
  {
    var j := FirstIndex(s, c);
  }

  /** Digits around one separator: the only non-digit is the separator. */
  lemma DigitsAround(a: string, sep: char, b: string)
    requires IsDigits(a) && IsDigits(b) && (sep == '.' || sep == ',')
    ensures (a + [sep] + b)[|a|] == sep
    ensures forall c :: (c == '.' || c == ',' || c == ' ' || c == 'R') && c != sep ==> c !in a + [sep] + b
  {
    var s := a + [sep] + b;
    forall k | 0 <= k < |s| ensures s[k] == sep || '0' <= s[k] <= '9' {
      if k > |a| { assert s[k] == b[k - |a| - 1]; }
    }
  }

  /** A string without "R$" and without outer spaces passes the first two
      steps unchanged. */
  lemma StrippedKeeps(s: string)
    requires s != [] && s[0] != ' ' && s[|s| - 1] != ' '
    requires 'R' !in s
    ensures Stripped(s) == s
  {
    RemoveSymbolAbsent(s);
    assert TrimLeft(s) == s;
    assert TrimRight(s) == s;
  }

  /** The first comma is the one after a comma-free prefix. */
  lemma CommaToPointAfter(x: string, y: string)
    requires ',' !in x
    ensures CommaToPoint(x + "," + y) == x + "." + y
  {
    var s := x + "," + y;
    assert s[|x|] == ',' && s[..|x|] == x;
    FirstIndexAt(s, ',', |x|);
  }

  lemma CommaBetweenDigits(a: string, b: string)
    requires IsDigits(a) && IsDigits(b)
    ensures Separators(a + "," + b) == a + "." + b
  {
    DigitsAround(a, ',', b);
    assert ',' !in a;
    CommaToPointAfter(a, b);
  }

  /** A single point between dot-free pieces is deleted. */
  lemma DeleteDotsBetween(a: string, b: string)
    requires '.' !in a && '.' !in b
    ensures DeleteDots(a + "." + b) == a + b
  {
    var p := a + ".";
    DeleteDotsAppend(p, b);
    DeleteDotsAppend(a, ".");
    DeleteDotsWithoutDots(a);
    DeleteDotsWithoutDots(b);
    assert DeleteDots(".") == [];
    assert DeleteDots(p) == a;
  }

  lemma PointBetweenDigits(a: string, b: string)
    requires IsDigits(a) && IsDigits(b)
    ensures Separators(a + "." + b) == a + b
  {
    var s := a + "." + b;
    DigitsAround(a, '.', b);
    assert ',' !in s && '.' in s;
    assert '.' !in a && '.' !in b;
    DeleteDotsBetween(a, b);
  }

  /** A decimal comma becomes a point; that result, normalised again, loses
      the point, which is now read as a thousands separator: the rewrite is
      not idempotent. */
  lemma NormalizeNotIdempotent(a: string, b: string)
    requires IsDigits(a) && IsDigits(b)
    ensures Normalize(a + "," + b) == a + "." + b
    ensures Normalize(Normalize(a + "," + b)) == a + b
  {
    DigitsAround(a, ',', b);
    DigitsAround(a, '.', b);
    StrippedKeeps(a + "," + b);
    StrippedKeeps(a + "." + b);
    CommaBetweenDigits(a, b);
    PointBetweenDigits(a, b);
  }

  /** A thousands point and then a decimal comma. */
  lemma ThousandsThenDecimal(a: string, b: string, c: string)
    requires '.' !in a && '.' !in b + "," + c
    requires ',' !in a && ',' !in b
    ensures CommaToPoint(DeleteDots(a + "." + (b + "," + c))) == a + b + "." + c
  {
    DeleteDotsBetween(a, b + "," + c);
    assert ',' !in a + b;
    assert a + (b + "," + c) == (a + b) + "," + c;
    CommaToPointAfter(a + b, c);
  }

  /** "R$ " in front of a string without outer spaces is stripped. */
  lemma StrippedAfterSymbol(t: string)
    requires t != [] && t[0] != ' ' && t[|t| - 1] != ' '
    ensures Stripped("R$ " + t) == t
  {
    var s := "R$ " + t;
    RemoveSymbolFirst(s, 0);
    assert RemoveSymbol(s) == [' '] + t;
    assert ([' '] + t)[1..] == t;
    assert TrimLeft(t) == t;
    assert TrimLeft([' '] + t) == t;
    assert TrimRight(t) == t;
  }

  lemma StrippedOfAmount(a: string, b: string, c: string)
    requires IsDigits(a) && IsDigits(b) && IsDigits(c)
    ensures Stripped("R$ " + (a + "." + (b + "," + c))) == a + "." + (b + "," + c)
  {
    var bc := b + "," + c;
    var t := a + "." + bc;
    assert t[0] != ' ' && t[|t| - 1] != ' ' by {
      if a == [] { assert t[0] == '.'; } else { assert t[0] == a[0]; }
      assert t[|t| - 1] == bc[|bc| - 1];
      if c == [] { assert bc[|bc| - 1] == ','; } else { assert bc[|bc| - 1] == c[|c| - 1]; }
    }
    StrippedAfterSymbol(t);
  }

  /** The Brazilian form "R$ 1.234,56": the symbol and the space go, the
      thousands point goes and the decimal comma becomes the point. */
  lemma NormalizeBrazilianAmount(a: string, b: string, c: string)
    requires IsDigits(a) && IsDigits(b) && IsDigits(c)
    ensures Normalize("R$ " + a + "." + b + "," + c) == a + b + "." + c
  {
    var bc := b + "," + c;
    var t := a + "." + bc;
    assert '.' !in bc && ',' !in b by {
      DigitsAround(b, ',', c);
      DigitsAround(b, '.', []);
    }
    assert ',' !in a && '.' !in a by { DigitsAround(a, '.', []); }
    calc {
      Normalize("R$ " + a + "." + b + "," + c);
      { assert "R$ " + a + "." + b + "," + c == "R$ " + t; }
      Separators(Stripped("R$ " + t));
      { StrippedOfAmount(a, b, c); }
      Separators(t);
      { assert t[|a|] == '.' && t[|a| + 1 + |b|] == ','; }
      CommaToPoint(DeleteDots(t));
      { ThousandsThenDecimal(a, b, c); }
      a + b + "." + c;
    }
  }
}
