/** Property names that are numbers: which they are, and how they are spelled as keys (src/context.rs). */
module PropertyNames {
  import opened Values
  import opened Arithmetic
  import Radix

  /** The number that a name of decimal digits stands for, if 32 bits hold it. */
  function Index(name: string): (n: Option<nat>)
    ensures n.Some? ==> n.value < TWO_TO_32
  {
    if name != "" && Radix.AllDigits(name, 10) && Radix.Magnitude(name, 10) < TWO_TO_32 then
      Some(Radix.Magnitude(name, 10))
    else None
  }

  /** The key of the property with that name: an index is listed in its shortest form, any other name as it is. */
  function Named(name: string): string {
    match Index(name)
    case Some(n) => Radix.Format(n, 10)
    case None => name
  }

  /** `parse_index`: gives up at the first character that is no digit, and when 32 bits overflow. */
  method ParseIndex(name: string) returns (r: Option<nat>)
    ensures r == Index(name)
  {
    if name == "" { return None; }
    var value: nat := 0;
    for i := 0 to |name|
      invariant Radix.AllDigits(name[..i], 10) && value == Radix.Magnitude(name[..i], 10) < TWO_TO_32
    {
      var c := name[i];
      if !('0' <= c <= '9') {
        assert !Radix.IsDigit(name[i], 10);
        return None;
      }
      var digit := c as int - '0' as int;
      DigitMore(name, i);
      if value * 10 >= TWO_TO_32 || value * 10 + digit >= TWO_TO_32 {
        if Radix.AllDigits(name, 10) { MagnitudeGrows(name, i + 1); }
        return None;
      }
      value := value * 10 + digit;
    }
    assert name[..|name|] == name;
    r := Some(value);
  }

  lemma DigitMore(s: string, i: nat)
    requires i < |s| && Radix.AllDigits(s[..i], 10) && '0' <= s[i] <= '9'
    ensures Radix.AllDigits(s[..i + 1], 10)
    ensures Radix.Magnitude(s[..i + 1], 10) == Radix.Magnitude(s[..i], 10) * 10 + (s[i] as int - '0' as int)
  {
    var t := s[..i + 1];
    assert t[..i] == s[..i] && t[i] == s[i];
    forall k | 0 <= k < |t| ensures Radix.IsDigit(t[k], 10) {
      if k < i { assert t[k] == s[..i][k]; }
    }
  }

  lemma {:induction false} MagnitudeGrows(s: string, i: nat)
    requires i <= |s| && Radix.AllDigits(s, 10)
    ensures Radix.Magnitude(s[..i], 10) <= Radix.Magnitude(s, 10)
    decreases |s|
  {
    if i == |s| {
      assert s[..i] == s;
    } else {
      var front := s[..|s| - 1];
      assert front[..i] == s[..i];
      MagnitudeGrows(front, i);
    }
  }

  /** A name is the key of its property exactly when it is no index, or one without superfluous zeros. */
  lemma NamedSame(name: string)
    ensures Named(name) == name <==> Index(name).None? || name == "0" || name[0] != '0'
  {
    if Index(name).Some? {
      var n := Index(name).value;
      Radix.FormatIsCanonical(n, 10);
      assert name == "0" ==> name[..0] == "";
      DigitFirst(name);
      if name == "0" || name[0] != '0' {
        CanonicalName(name);
        Radix.CanonicalIsFormat(name, 10);
      }
    }
  }

  lemma DigitFirst(name: string)
    requires Index(name).Some?
    ensures name != "" && Radix.IsDigit(name[0], 10) && name[0] != '-'
  {
  }

  lemma CanonicalName(name: string)
    requires Index(name).Some? && (name == "0" || name[0] != '0')
    ensures Radix.Canonical(name, 10) && Radix.Meaning(name, 10) == Index(name).value
  {
    DigitFirst(name);
  }

  /** The key is the same name for the same property. */
  lemma NamedStays(name: string)
    ensures Index(Named(name)) == Index(name) && Named(Named(name)) == Named(name)
  {
    if Index(name).Some? {
      Radix.FormatIsCanonical(Index(name).value, 10);
    }
  }

  /** Two names are of one property if and only if they are equal, or indexes with the same number. */
  lemma OneProperty(a: string, b: string)
    ensures Named(a) == Named(b) <==> a == b || (Index(a).Some? && Index(a) == Index(b))
  {
    NamedStays(a);
    NamedStays(b);
  }
}
