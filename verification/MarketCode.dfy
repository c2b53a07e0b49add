/** Codes with a market prefix. */
module MarketCode {

  datatype Market = SZ | SH | BJ

  /** `ParseMarketCode`: the market and the bare code; an empty code means that there was no
      prefix. */
  function ParseMarketCode(s: string): (r: (Market, string))
    ensures r.1 != "" <==> Parses(s)
    ensures Parses(s) ==> Prefix(r.0) + r.1 == s && |r.1| >= 6
  {
    if |s| < 8 then (SH, "")
    else if s[..2] == "sh" then (SH, s[2..])
    else if s[..2] == "sz" then (SZ, s[2..])
    else if s[..2] == "bj" then (BJ, s[2..])
    else (SH, "")
  }

  function Prefix(m: Market): string {
    match m
    case SH => "sh"
    case SZ => "sz"
    case BJ => "bj"
  }

  predicate Parses(s: string) {
    |s| >= 8 && (s[..2] == "sh" || s[..2] == "sz" || s[..2] == "bj")
  }

  /** A code of six characters or more, printed behind its market's prefix, is read back; and the
      prefixes are these. */
  lemma PrefixedIsParsed(m: Market, code: string)
    requires |code| >= 6
    ensures ParseMarketCode(Prefix(m) + code) == (m, code)
    ensures Prefix(SH) == "sh" && Prefix(SZ) == "sz" && Prefix(BJ) == "bj"
  {
    var s := Prefix(m) + code;
    assert s[..2] == Prefix(m) && s[2..] == code;
    assert "sh"[0] == 's' && "sz"[1] == 'z' && "sh"[1] == 'h' && "bj"[0] == 'b';
  }
}
