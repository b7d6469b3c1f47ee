/**
 The network gate: the chain id reported by the wallet, a string such as
 "0xe708" or "59144", is normalised to a number and compared with Linea
 mainnet's chain id.
 */
module Chain {
  import opened Wrappers
  import Text
  import opened JsParseInt

  /** Linea mainnet. */
  const LineaChainId: nat := 59144

  /** The numeric chain id: nothing for a missing or empty string, otherwise
      `parseInt` in radix 16 behind a "0x"/"0X" prefix and in radix 10 without
      one; `None` also stands for NaN. */
  function NumericChainId(chainId: Option<string>): Option<int> {
    if !Text.Truthy(chainId) then None
    else if HasHexPrefix(chainId.value) then ParseInt(chainId.value, 16)
    else ParseInt(chainId.value, 10)
  }

  /** `numericChainId === 59144`; null and NaN never compare equal. */
  predicate IsOnLinea(chainId: Option<string>) {
    NumericChainId(chainId) == Some(LineaChainId)
  }

  /** A missing or empty chain id never passes the gate. */
  lemma AbsentNeverPasses(chainId: Option<string>)
    requires chainId == None || chainId == Some("")
    ensures !IsOnLinea(chainId)
  {
  }

  /** Any run of decimal digits, leading zeros included, is read as its
      value. Whatever follows the digits changes nothing unless it continues
      the number, or turns a lone leading "0" into a hex prefix. */
  lemma DecimalSpellingVerdict(d: string, junk: string)
    requires d != [] && forall i :: 0 <= i < |d| ==> IsDigit(d[i], 10)
    requires junk == [] || (!IsDigit(junk[0], 10) && (d != "0" || (junk[0] != 'x' && junk[0] != 'X')))
    ensures NumericChainId(Some(d + junk)) == Some(DigitsValue(d, 10))
  {
    var s := d + junk;
    assert s[0] == d[0] && IsDigit(d[0], 10);
    assert !HasHexPrefix(s) by {
      if |s| >= 2 {
        if |d| >= 2 {
          assert s[1] == d[1] && IsDigit(d[1], 10);
        } else {
          assert s[1] == junk[0];
        }
      }
    }
    DecimalDigitsRead(d, junk);
  }

  /** Any run of hexadecimal digits, in either case and with any leading
      zeros, behind "0x" or "0X" is read as its value. */
  lemma HexSpellingVerdict(x: char, d: string, junk: string)
    requires x == 'x' || x == 'X'
    requires d != [] && forall i :: 0 <= i < |d| ==> IsDigit(d[i], 16)
    requires junk == [] || !IsDigit(junk[0], 16)
    ensures NumericChainId(Some(['0', x] + d + junk)) == Some(DigitsValue(d, 16))
  {
    var s := ['0', x] + d + junk;
    assert s[0] == '0' && s[1] == x;
    HexDigitsRead(x, d, junk);
  }

  /** A decimal spelling and a hexadecimal spelling of the same number get
      the same verdict, and that verdict is "the number is 59144", whatever
      the case of the hex digits and however many leading zeros either has. */
  lemma AnySpellingsAgree(d: string, junk: string, x: char, e: string, junk': string)
    requires d != [] && forall i :: 0 <= i < |d| ==> IsDigit(d[i], 10)
    requires junk == [] || (!IsDigit(junk[0], 10) && (d != "0" || (junk[0] != 'x' && junk[0] != 'X')))
    requires x == 'x' || x == 'X'
    requires e != [] && forall i :: 0 <= i < |e| ==> IsDigit(e[i], 16)
    requires junk' == [] || !IsDigit(junk'[0], 16)
    requires DigitsValue(d, 10) == DigitsValue(e, 16)
    ensures IsOnLinea(Some(d + junk)) <==> IsOnLinea(Some(['0', x] + e + junk'))
    ensures IsOnLinea(Some(d + junk)) <==> DigitsValue(d, 10) == LineaChainId
  {
    DecimalSpellingVerdict(d, junk);
    HexSpellingVerdict(x, e, junk');
  }

  /** The canonical decimal, "0x…" and "0X…" spellings of one number get the
      same verdict, and that verdict is "the number is 59144". */
  lemma SpellingsAgree(n: nat, junk: string)
    requires junk == [] || (!IsDigit(junk[0], 16) && junk[0] != 'x' && junk[0] != 'X')
    ensures IsOnLinea(Some(ToDigits(n, 10) + junk)) <==> n == LineaChainId
    ensures IsOnLinea(Some("0x" + ToDigits(n, 16) + junk)) <==> n == LineaChainId
    ensures IsOnLinea(Some("0X" + ToDigits(n, 16) + junk)) <==> n == LineaChainId
  {
    DigitsValueOfToDigits(n, 10);
    DigitsValueOfToDigits(n, 16);
    DecimalSpellingVerdict(ToDigits(n, 10), junk);
    HexSpellingVerdict('x', ToDigits(n, 16), junk);
    HexSpellingVerdict('X', ToDigits(n, 16), junk);
    assert "0x" == ['0', 'x'] && "0X" == ['0', 'X'];
  }

  /** Upper-case hex digits pass like the canonical id. */
  lemma UpperCaseHexPasses()
    ensures IsOnLinea(Some("0xE708"))
  {
    assert DigitsValue("E708", 16) == LineaChainId by {
      assert "E708"[..3] == "E70" && "E70"[..2] == "E7" && "E7"[..1] == "E";
    }
    HexSpellingVerdict('x', "E708", "");
    assert ['0', 'x'] + "E708" + "" == "0xE708";
  }

  /** A leading zero behind the hex prefix changes nothing. */
  lemma ZeroPaddedHexPasses()
    ensures IsOnLinea(Some("0x0e708"))
  {
    assert DigitsValue("0e708", 16) == LineaChainId by {
      assert "0e708"[..4] == "0e70" && "0e70"[..3] == "0e7" && "0e7"[..2] == "0e" && "0e"[..1] == "0";
    }
    HexSpellingVerdict('x', "0e708", "");
    assert ['0', 'x'] + "0e708" + "" == "0x0e708";
  }

  /** A leading zero in decimal changes nothing. */
  lemma ZeroPaddedDecimalPasses()
    ensures IsOnLinea(Some("059144"))
  {
    assert DigitsValue("059144", 10) == LineaChainId by {
      assert DigitsValue("0591", 10) == 591 by {
        assert "0591"[..3] == "059" && "059"[..2] == "05" && "05"[..1] == "0";
      }
      assert "059144"[..5] == "05914" && "05914"[..4] == "0591";
    }
    DecimalSpellingVerdict("059144", "");
    assert "059144" + "" == "059144";
  }
}
