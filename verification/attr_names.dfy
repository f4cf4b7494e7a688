/**
 * Attribute name derivation: a member's programmatic name becomes its
 * serialized attribute name, either lower-cased or dash-cased.
 * Characters are treated as ASCII: only 'A'..'Z' have a lower-case form.
 */
module AttrNames {

  predicate IsUpper(c: char)
  {
    'A' <= c <= 'Z'
  }

  /** No character of `s` is an upper-case letter. */
  predicate NoUpper(s: string)
  {
    forall i :: 0 <= i < |s| ==> !IsUpper(s[i])
  }

  function LowerChar(c: char): (d: char)
    ensures !IsUpper(d)
    ensures !IsUpper(c) ==> d == c
    ensures IsUpper(c) ==> d != c && 'a' <= d <= 'z'
  {
    if IsUpper(c) then (c as int + 32) as char else c
  }

  /** `String.prototype.toLowerCase`, restricted to ASCII letters. */
  function ToLowerCase(s: string): (r: string)
    ensures |r| == |s|
    ensures forall i :: 0 <= i < |s| ==> r[i] == LowerChar(s[i])
    ensures NoUpper(r)
  {
    if |s| == 0 then "" else [LowerChar(s[0])] + ToLowerCase(s[1..])
  }

  /** Number of upper-case letters in `s`. */
  function CountUpper(s: string): nat
  {
    if |s| == 0 then 0 else (if IsUpper(s[0]) then 1 else 0) + CountUpper(s[1..])
  }

  /** `s` with every '-' removed. */
  function StripDashes(s: string): (r: string)
    ensures |r| <= |s|
    ensures forall i :: 0 <= i < |r| ==> r[i] != '-'
  {
    if |s| == 0 then ""
    else if s[0] == '-' then StripDashes(s[1..])
    else [s[0]] + StripDashes(s[1..])
  }

  /** Dash-cases the tail of a name: every upper-case letter becomes '-' and its lower-case form. */
  function DashTail(t: string): (r: string)
    ensures |r| == |t| + CountUpper(t)
    ensures NoUpper(r)
  {
    if |t| == 0 then ""
    else if IsUpper(t[0]) then ['-', LowerChar(t[0])] + DashTail(t[1..])
    else [t[0]] + DashTail(t[1..])
  }

  /**
   * `toDashCase(name)`: a '-' is inserted before every upper-case letter that
   * is not at position 0, then the whole string is lower-cased
   * (`myProp` becomes `my-prop`). `DashCaseSnoc` pins where the dashes go.
   */
  function ToDashCase(s: string): (r: string)
    ensures |s| == 0 ==> r == ""
    ensures |s| > 0 ==> |r| == |s| + CountUpper(s[1..]) && r[0] == LowerChar(s[0])
    ensures NoUpper(r)
  {
    if |s| == 0 then "" else [LowerChar(s[0])] + DashTail(s[1..])
  }

  /** Dash-casing a tail works piece by piece. */
  lemma {:induction false} DashTailAppend(a: string, b: string)
    ensures DashTail(a + b) == DashTail(a) + DashTail(b)
    decreases |a|
  {
    if |a| == 0 {
      assert a + b == b;
    } else {
      assert (a + b)[0] == a[0];
      assert (a + b)[1..] == a[1..] + b;
      DashTailAppend(a[1..], b);
    }
  }

  /**
   * Dash-casing, one character at a time: the first character is only
   * lower-cased; every later upper-case letter contributes '-' and its
   * lower-case form, and every other character is kept as it is.
   */
  lemma DashCaseSnoc(s: string, c: char)
    ensures ToDashCase(s + [c]) ==
      if |s| == 0 then [LowerChar(c)]
      else ToDashCase(s) + (if IsUpper(c) then ['-', LowerChar(c)] else [c])
  {
    if |s| > 0 {
      assert (s + [c])[1..] == s[1..] + [c];
      DashTailAppend(s[1..], [c]);
      assert [c][1..] == [];
    }
  }

  lemma {:induction false} StripDashesAppend(a: string, b: string)
    ensures StripDashes(a + b) == StripDashes(a) + StripDashes(b)
    decreases |a|
  {
    if |a| == 0 {
      assert a + b == b;
    } else {
      assert (a + b)[1..] == a[1..] + b;
      StripDashesAppend(a[1..], b);
    }
  }

  lemma {:induction false} LowerAppend(a: string, b: string)
    ensures ToLowerCase(a + b) == ToLowerCase(a) + ToLowerCase(b)
  {
    assert |ToLowerCase(a + b)| == |ToLowerCase(a) + ToLowerCase(b)|;
    forall i | 0 <= i < |a + b|
      ensures ToLowerCase(a + b)[i] == (ToLowerCase(a) + ToLowerCase(b))[i]
    {
      if i < |a| {
        assert (a + b)[i] == a[i];
      } else {
        assert (a + b)[i] == b[i - |a|];
      }
    }
  }

  /** Lower-casing commutes with removing dashes. */
  lemma {:induction false} StripDashesOfLower(s: string)
    ensures StripDashes(ToLowerCase(s)) == ToLowerCase(StripDashes(s))
    decreases |s|
  {
    if |s| > 0 {
      assert ToLowerCase(s) == [LowerChar(s[0])] + ToLowerCase(s[1..]);
      StripDashesAppend([LowerChar(s[0])], ToLowerCase(s[1..]));
      StripDashesOfLower(s[1..]);
      if s[0] != '-' {
        LowerAppend([s[0]], StripDashes(s[1..]));
      }
    }
  }

  lemma {:induction false} StripDashesOfDashTail(t: string)
    ensures StripDashes(DashTail(t)) == ToLowerCase(StripDashes(t))
    decreases |t|
  {
    if |t| > 0 {
      StripDashesOfDashTail(t[1..]);
      if IsUpper(t[0]) {
        StripDashesAppend(['-', LowerChar(t[0])], DashTail(t[1..]));
        assert StripDashes(['-', LowerChar(t[0])]) == [LowerChar(t[0])] by {
          assert ['-', LowerChar(t[0])][1..] == [LowerChar(t[0])];
          assert StripDashes([LowerChar(t[0])][1..]) == "";
        }
        LowerAppend([t[0]], StripDashes(t[1..]));
      } else {
        StripDashesAppend([t[0]], DashTail(t[1..]));
        assert StripDashes([t[0]]) == (if t[0] == '-' then "" else [t[0]]) by {
          assert StripDashes([t[0]][1..]) == "";
        }
        if t[0] != '-' {
          LowerAppend([t[0]], StripDashes(t[1..]));
        }
      }
    }
  }

  /**
   * Dash-casing only inserts dashes and lower-cases letters: once all dashes
   * are removed, the dash-cased name is the lower-cased name.
   */
  lemma {:induction false} DashCaseOnlyInsertsDashes(s: string)
    ensures StripDashes(ToDashCase(s)) == StripDashes(ToLowerCase(s))
  {
    StripDashesOfLower(s);
    if |s| > 0 {
      StripDashesAppend([LowerChar(s[0])], DashTail(s[1..]));
      StripDashesOfDashTail(s[1..]);
      assert s == [s[0]] + s[1..];
      StripDashesAppend([s[0]], s[1..]);
      assert StripDashes([s[0]]) == (if s[0] == '-' then "" else [s[0]]) by {
        assert StripDashes([s[0]][1..]) == "";
      }
      assert StripDashes([LowerChar(s[0])]) == (if s[0] == '-' then "" else [LowerChar(s[0])]) by {
        assert StripDashes([LowerChar(s[0])][1..]) == "";
      }
      LowerAppend(StripDashes([s[0]]), StripDashes(s[1..]));
    }
  }

  lemma {:induction false} DashTailOfNoUpper(t: string)
    requires NoUpper(t)
    ensures DashTail(t) == t
    decreases |t|
  {
    if |t| > 0 {
      DashTailOfNoUpper(t[1..]);
    }
  }

  /**
   * For a name without upper-case letters both derivations return the name
   * itself, so the lower-case flag makes no difference.
   */
  lemma {:induction false} DerivationsAgreeOnLowerNames(s: string)
    requires NoUpper(s)
    ensures ToDashCase(s) == s
    ensures ToLowerCase(s) == s
  {
    if |s| > 0 {
      DashTailOfNoUpper(s[1..]);
    }
  }

  /** One unfolding of `DashTail` on a concrete name. */
  lemma DashTailStep(t: string, rest: string)
    requires |t| > 0 && DashTail(t[1..]) == rest
    ensures DashTail(t) == (if IsUpper(t[0]) then ['-', LowerChar(t[0])] else [t[0]]) + rest
  {
  }

  /** Worked example: dash-casing a camel-case name. */
  lemma DashCaseExample()
    ensures ToDashCase("myProp") == "my-prop"
  {
    DashTailStep("p", "");
    DashTailStep("op", "p");
    DashTailStep("rop", "op");
    DashTailStep("Prop", "rop");
    DashTailStep("yProp", "-prop");
    assert "myProp"[1..] == "yProp";
  }

  /** Worked example: the lower-case flag keeps no separators. */
  lemma LowerCaseExample()
    ensures ToLowerCase("myProp") == "myprop"
  {
    var l := ToLowerCase("myProp");
    assert |l| == 6;
    assert l == "myprop";
  }
}
