/** `check_dcc_type`, the legacy proxy's validator for its DCC threshold option. */
module DccOption {
  import opened Wrappers
  import opened Text
  import opened PyNumbers

  /** The value `many` stands for. */
  const ManyDcc: int := 999999

  /** The two `ArgumentTypeError`s. */
  datatype DccTypeError = NotAnInteger(value: string) | TooSmall(val: int)

  /** `many` or an integer, and at least 2. */
  function CheckDccType(value: string): (r: Result<int, DccTypeError>)
    ensures r.Success? ==> r.value >= 2
    ensures value == "many" ==> r == Success(ManyDcc)
    ensures r.Failure? && r.error.TooSmall? ==> r.error.val < 2
  {
    var parsed := if value == "many" then Some(ManyDcc) else PyInt(value);
    match parsed
    case None => Failure(NotAnInteger(value))
    case Some(v) => if v < 2 then Failure(TooSmall(v)) else Success(v)
  }

  /** Any value other than `many` is judged by what `int()` makes of it. */
  lemma CheckDccTypeOfInteger(value: string)
    requires value != "many"
    ensures CheckDccType(value) == match PyInt(value)
                                   case None => Failure(NotAnInteger(value))
                                   case Some(v) => if v < 2 then Failure(TooSmall(v)) else Success(v)
  {
  }

  /** An integer of at least 2, written out, comes back unchanged. */
  lemma CheckDccTypeKeepsInteger(v: int)
    requires v >= 2
    ensures CheckDccType(Repr(v)) == Success(v)
  {
    PyIntRepr(v);
    assert Repr(v) != "many" by {
      assert IsDigit(Repr(v)[0]);
    }
  }

  /** Any integer below 2 is rejected with its value. */
  lemma CheckDccTypeRejectsSmall(v: int)
    requires v < 2
    ensures CheckDccType(Repr(v)) == Failure(TooSmall(v))
  {
    PyIntRepr(v);
    assert Repr(v) != "many" by {
      assert Repr(v)[0] == '-' || IsDigit(Repr(v)[0]);
    }
  }

  /** Surrounding white space that `int()` skips, and a plus sign, are accepted. */
  lemma {:induction false} CheckDccTypeAllowsSignAndSpace(v: int, before: string, after: string)
    requires v >= 2
    requires forall i :: 0 <= i < |before| ==> IsIntSpace(before[i])
    requires forall i :: 0 <= i < |after| ==> IsIntSpace(after[i])
    ensures CheckDccType(before + "+" + Decimal(v) + after) == Success(v)
  {
    var t := "+" + Decimal(v);
    assert before + "+" + Decimal(v) + after == before + t + after;
    PyIntIgnoresSpace(before, t, after);
    PyIntUnstripped(t);
    assert t[1..] == Decimal(v);
    AllDigitsIsDigitString(Decimal(v));
    assert PyInt(t) == Some(v);
    var s := before + t + after;
    assert s != "many" by {
      if |before| > 0 {
        assert s[0] == before[0];
        assert !IsIntSpace("many"[0]);
      } else {
        assert s[0] == '+';
      }
    }
    CheckDccTypeOfInteger(s);
  }

  /** A value that is empty or all white space `int()` skips is not an integer. */
  lemma CheckDccTypeRejectsBlank(value: string)
    requires forall i :: 0 <= i < |value| ==> IsIntSpace(value[i])
    ensures CheckDccType(value) == Failure(NotAnInteger(value))
  {
    assert value != "many" by {
      if |value| == 4 { assert !IsIntSpace("many"[0]); }
    }
    assert Strip(value) == [] by {
      assert |StripLeft(value)| == 0 by {
        if |StripLeft(value)| > 0 {
          assert StripLeft(value)[0] == value[|value| - |StripLeft(value)|];
        }
      }
    }
  }

  /** Underscores between digits are ignored. */
  lemma CheckDccTypeUnderscores()
    ensures CheckDccType("1_000") == Success(1000)
  {
    PyIntUnstripped("1_000");
    assert "1_000" != "many" by { assert "1_000"[0] != "many"[0]; }
    CheckDccTypeOfInteger("1_000");
    assert ParseSigned("1_000") == Some(1000) by {
      assert DigitString("1_000");
      assert DecimalValue("1_000") == 1000 by {
        assert "1_000"[..4] == "1_00" && "1_00"[..3] == "1_0" && "1_0"[..2] == "1_" && "1_"[..1] == "1";
        assert "1"[..0] == "";
      }
    }
  }

  /** A fraction is not an integer. */
  lemma CheckDccTypeRejectsFraction()
    ensures CheckDccType("2.5") == Failure(NotAnInteger("2.5"))
  {
    PyIntUnstripped("2.5");
    assert "2.5" != "many" by { assert "2.5"[0] != "many"[0]; }
    CheckDccTypeOfInteger("2.5");
    assert ParseSigned("2.5").None? by { assert !IsDigit("2.5"[1]); }
  }

  /** Underscores may not be doubled. */
  lemma CheckDccTypeRejectsDoubleUnderscore()
    ensures CheckDccType("1__0") == Failure(NotAnInteger("1__0"))
  {
    PyIntUnstripped("1__0");
    assert "1__0" != "many" by { assert "1__0"[0] != "many"[0]; }
    CheckDccTypeOfInteger("1__0");
    assert ParseSigned("1__0").None? by { assert "1__0"[1] == '_' && "1__0"[2] == '_'; }
  }

  /** The keyword is case-sensitive: `Many` is not accepted. */
  lemma CheckDccTypeRejectsCapitalised()
    ensures CheckDccType("Many") == Failure(NotAnInteger("Many"))
  {
    PyIntUnstripped("Many");
    assert "Many" != "many" by { assert "Many"[0] != "many"[0]; }
    CheckDccTypeOfInteger("Many");
    assert ParseSigned("Many").None? by { assert !IsDigit("Many"[0]); }
  }

  /** A value led by an information separator, such as U+001C before `5`, is
      not an integer, although `str.isspace` counts the separator as white space. */
  lemma CheckDccTypeRejectsSeparator(c: char, v: int)
    requires 0x1C <= c as int <= 0x1F
    ensures CheckDccType([c] + Repr(v)) == Failure(NotAnInteger([c] + Repr(v)))
  {
    PyIntRejectsSeparator(c, Repr(v));
    assert [c] + Repr(v) != "many" by { assert ([c] + Repr(v))[0] != "many"[0]; }
    CheckDccTypeOfInteger([c] + Repr(v));
  }
}
