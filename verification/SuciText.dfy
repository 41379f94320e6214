/** The textual SUCI: printing in `CipherSuci` and the regular expression of `ParseSuci`. */
module SuciText {
  import opened Base
  import opened HexText

  // ---------- fields between dashes ----------

  predicate NoDash(s: string) { forall i :: 0 <= i < |s| ==> s[i] != '-' }

  function Split(s: string): (r: seq<string>)
    ensures r != []
  {
    if s == "" then [""]
    else
      var r := Split(s[1..]);
      if s[0] == '-' then [""] + r else [[s[0]] + r[0]] + r[1..]
  }

  function JoinFields(fs: seq<string>): string
    requires fs != []
  {
    if |fs| == 1 then fs[0] else fs[0] + "-" + JoinFields(fs[1..])
  }

  lemma {:induction false} SplitField(f: string, rest: string)
    requires NoDash(f)
    ensures Split(f) == [f]
    ensures Split(f + "-" + rest) == [f] + Split(rest)
    decreases |f|
  {
    var s := f + "-" + rest;
    if f == "" {
      assert s[1..] == rest;
    } else {
      SplitField(f[1..], rest);
      assert s[1..] == f[1..] + "-" + rest;
      assert [f[0]] + f[1..] == f;
    }
  }

  /** Fields without dashes are recovered from the text they were joined into. */
  lemma {:induction false} SplitInvertsJoin(fs: seq<string>)
    requires fs != [] && forall i :: 0 <= i < |fs| ==> NoDash(fs[i])
    ensures Split(JoinFields(fs)) == fs
    decreases |fs|
  {
    if |fs| == 1 {
      SplitField(fs[0], "");
    } else {
      SplitInvertsJoin(fs[1..]);
      SplitField(fs[0], JoinFields(fs[1..]));
    }
  }

  // ---------- the regular expression ----------

  predicate Digits(s: string, min: nat, max: nat) { min <= |s| <= max && forall i :: 0 <= i < |s| ==> IsDigit(s[i]) }

  predicate SchemeOk(s: string) { |s| == 1 && '0' <= s[0] <= '2' }

  /** One or two digits, or a three-digit number from 100 to 255. */
  predicate KeyIdOk(s: string) {
    || Digits(s, 1, 2)
    || (Digits(s, 3, 3) &&
        (s[0] == '1' || (s[0] == '2' && ('0' <= s[1] <= '4' || (s[1] == '5' && '0' <= s[2] <= '5')))))
  }

  predicate OutputOk(s: string) { s != "" && forall i :: 0 <= i < |s| ==> IsHex(s[i]) }

  datatype Suci = Suci(
    supiType: string, mcc: string, mnc: string, homeNetwork: string,
    routing: string, scheme: string, keyId: string, output: string, raw: string)

  predicate TailOk(f: seq<string>)
    requires |f| == 4
  {
    Digits(f[0], 1, 4) && SchemeOk(f[1]) && KeyIdOk(f[2]) && OutputOk(f[3])
  }

  /** `ParseSuci`: IMSI type with fixed fields, or NAI type with any home network. */
  function ParseSuci(input: string): Option<Suci> {
    var f := Split(input);
    var n := |f|;
    if n == 8 && f[0] == "suci" && f[1] == "0" && Digits(f[2], 3, 3) && Digits(f[3], 2, 3) && TailOk(f[4..8])
    then Some(Suci("0-" + f[2] + "-" + f[3], f[2], f[3], "", f[4], f[5], f[6], f[7], input))
    else if n >= 7 && f[0] == "suci" && f[1] == "1" && TailOk(f[n - 4..]) && '\n' !in JoinFields(f[2..n - 4])
    then
      var nai := "1-" + JoinFields(f[2..n - 4]);
      Some(Suci(nai, "", "", nai, f[n - 4], f[n - 3], f[n - 2], f[n - 1], input))
    else None
  }

  /** The text `CipherSuci` prints for the IMSI type. */
  function Print(mcc: string, mnc: string, routing: string, scheme: string, keyId: string, output: string): string {
    JoinFields(["suci", "0", mcc, mnc, routing, scheme, keyId, output])
  }

  predicate FieldsOk(mcc: string, mnc: string, routing: string, scheme: string, keyId: string, output: string) {
    && Digits(mcc, 3, 3) && Digits(mnc, 2, 3) && Digits(routing, 1, 4)
    && SchemeOk(scheme) && KeyIdOk(keyId) && OutputOk(output)
  }

  /** UNIQUE PARSE.  Printed text parses if and only if every field is well formed, and
      then it parses to exactly the fields that were printed. */
  lemma PrintParses(mcc: string, mnc: string, routing: string, scheme: string, keyId: string, output: string)
    requires NoDash(mcc) && NoDash(mnc) && NoDash(routing) && NoDash(scheme) && NoDash(keyId) && NoDash(output)
    ensures
      var text := Print(mcc, mnc, routing, scheme, keyId, output);
      ParseSuci(text) ==
        if FieldsOk(mcc, mnc, routing, scheme, keyId, output)
        then Some(Suci("0-" + mcc + "-" + mnc, mcc, mnc, "", routing, scheme, keyId, output, text))
        else None
  {
    hide JoinFields, Digits, SchemeOk, KeyIdOk, OutputOk;
    var fs := ["suci", "0", mcc, mnc, routing, scheme, keyId, output];
    SplitInvertsJoin(fs);
    assert fs[4..8] == [routing, scheme, keyId, output];
    hide Split;
  }

  /** Well-formed fields contain no dash. */
  lemma FieldsHaveNoDash(mcc: string, mnc: string, routing: string, scheme: string, keyId: string, output: string)
    requires FieldsOk(mcc, mnc, routing, scheme, keyId, output)
    ensures NoDash(mcc) && NoDash(mnc) && NoDash(routing) && NoDash(scheme) && NoDash(keyId) && NoDash(output)
  {
    assert !IsHex('-');
  }

  /** Decimal value of a digit string. */
  function Number(s: string): nat
    requires Digits(s, 0, |s|)
    decreases |s|
  {
    if s == "" then 0 else 10 * Number(s[..|s| - 1]) + (s[|s| - 1] as int - '0' as int)
  }

  // ---------- the language of the regular expression ----------

  /** Every text is its fields between dashes. */
  lemma {:induction false} JoinInvertsSplit(s: string)
    ensures JoinFields(Split(s)) == s && forall i :: 0 <= i < |Split(s)| ==> NoDash(Split(s)[i])
  {
    if s != "" {
      JoinInvertsSplit(s[1..]);
      var r := Split(s[1..]);
      assert s == [s[0]] + s[1..];
      if s[0] == '-' {
        assert ([""] + r)[1..] == r;
      } else {
        assert r == [r[0]] + r[1..];
      }
    }
  }

  /** Routing indicator, scheme, key id and output, each behind a dash. */
  function TailText(f: seq<string>): string
    requires |f| == 4
  {
    "-" + f[0] + "-" + f[1] + "-" + f[2] + "-" + f[3]
  }

  lemma {:induction false} JoinConcat(a: seq<string>, b: seq<string>)
    requires a != [] && b != []
    ensures JoinFields(a + b) == JoinFields(a) + "-" + JoinFields(b)
    decreases |a|
  {
    assert (a + b)[1..] == a[1..] + b;
    if |a| > 1 {
      JoinConcat(a[1..], b);
    } else {
      assert a[1..] + b == b;
    }
  }

  lemma TailJoins(tail: seq<string>)
    requires |tail| == 4
    ensures "-" + JoinFields(tail) == TailText(tail)
  {
    assert tail[1..][1..] == tail[2..] && tail[2..][1..] == tail[3..] && tail[3..] == [tail[3]];
    assert JoinFields(tail[2..]) == tail[2] + "-" + tail[3];
    assert JoinFields(tail[1..]) == tail[1] + "-" + JoinFields(tail[2..]);
  }

  lemma TailHasNoDash(tail: seq<string>)
    requires |tail| == 4 && TailOk(tail)
    ensures forall i :: 0 <= i < 4 ==> NoDash(tail[i])
  {
    assert !IsHex('-');
  }

  /** The IMSI form as joined fields. */
  lemma ImsiJoins(mcc: string, mnc: string, tail: seq<string>)
    requires |tail| == 4
    ensures JoinFields(["suci", "0", mcc, mnc] + tail) == "suci-0-" + mcc + "-" + mnc + TailText(tail)
  {
    hide JoinFields, TailText;
    var head := ["suci", "0", mcc, mnc];
    JoinConcat(head, tail);
    TailJoins(tail);
    assert head == ["suci", "0"] + [mcc, mnc];
    JoinConcat(["suci", "0"], [mcc, mnc]);
    JoinTwo("suci", "0");
    JoinTwo(mcc, mnc);
    assert "suci" + "-" + "0" + "-" == "suci-0-";
  }

  lemma JoinTwo(f: string, g: string)
    ensures JoinFields([f, g]) == f + "-" + g
  {
    assert [f, g][1..] == [g];
  }

  /** The NAI form as joined fields. */
  lemma NaiJoins(mid: seq<string>, tail: seq<string>)
    requires mid != [] && |tail| == 4
    ensures JoinFields(["suci", "1"] + mid + tail) == "suci-1-" + JoinFields(mid) + TailText(tail)
  {
    hide JoinFields, TailText;
    JoinConcat(["suci", "1"] + mid, tail);
    JoinConcat(["suci", "1"], mid);
    JoinTwo("suci", "1");
    TailJoins(tail);
    assert "suci" + "-" + "1" + "-" == "suci-1-";
  }

  /** A SUCI of the NAI type keeps its home network whole, dashes included. */
  lemma NaiParses(home: string, tail: seq<string>)
    requires |tail| == 4 && '\n' !in home && TailOk(tail)
    ensures
      var text := "suci-1-" + home + TailText(tail);
      ParseSuci(text) == Some(Suci("1-" + home, "", "", "1-" + home, tail[0], tail[1], tail[2], tail[3], text))
  {
    JoinInvertsSplit(home);
    var mid := Split(home);
    NaiJoins(mid, tail);
    TailHasNoDash(tail);
    var f := ["suci", "1"] + mid + tail;
    SplitInvertsJoin(f);
    hide Split, JoinFields, TailOk, TailText;
    assert f[2..|f| - 4] == mid && f[|f| - 4..] == tail;
  }

  lemma ImsiParses(mcc: string, mnc: string, tail: seq<string>)
    requires |tail| == 4 && Digits(mcc, 3, 3) && Digits(mnc, 2, 3) && TailOk(tail)
    ensures ParseSuci("suci-0-" + mcc + "-" + mnc + TailText(tail)).Some?
  {
    ImsiJoins(mcc, mnc, tail);
    TailHasNoDash(tail);
    var f := ["suci", "0", mcc, mnc] + tail;
    SplitInvertsJoin(f);
    hide Split, JoinFields, TailOk, TailText, Digits;
    assert f[4..8] == tail;
  }

  /** WHICH TEXTS PARSE.  The IMSI form with well-formed fields, the NAI form with a home network of
      any characters but line feeds, and nothing else. */
  lemma ParseIff(text: string)
    ensures ParseSuci(text).Some? <==>
              || (exists mcc, mnc, tail :: |tail| == 4 && Digits(mcc, 3, 3) && Digits(mnc, 2, 3) && TailOk(tail)
                                           && text == "suci-0-" + mcc + "-" + mnc + TailText(tail))
              || (exists home, tail :: |tail| == 4 && '\n' !in home && TailOk(tail)
                                       && text == "suci-1-" + home + TailText(tail))
  {
    hide Split, JoinFields, TailOk, TailText, Digits;
    if mcc, mnc, tail :| |tail| == 4 && Digits(mcc, 3, 3) && Digits(mnc, 2, 3) && TailOk(tail)
                         && text == "suci-0-" + mcc + "-" + mnc + TailText(tail) {
      ImsiParses(mcc, mnc, tail);
    }
    if home, tail :| |tail| == 4 && '\n' !in home && TailOk(tail) && text == "suci-1-" + home + TailText(tail) {
      NaiParses(home, tail);
    }
    if ParseSuci(text).Some? {
      JoinInvertsSplit(text);
      var f := Split(text);
      if f[1] == "0" {
        assert f == ["suci", "0", f[2], f[3]] + f[4..8];
        ImsiJoins(f[2], f[3], f[4..8]);
      } else {
        var mid := f[2..|f| - 4];
        assert f == ["suci", "1"] + mid + f[|f| - 4..];
        NaiJoins(mid, f[|f| - 4..]);
      }
    }
  }

  /** The fields behind the home network: one to four digits, a scheme from 0 to 2, a key id, and
      hexadecimal text. */
  lemma TailIff(f: seq<string>)
    requires |f| == 4
    ensures TailOk(f) <==>
              && 1 <= |f[0]| <= 4 && (forall i :: 0 <= i < |f[0]| ==> '0' <= f[0][i] <= '9')
              && (f[1] == "0" || f[1] == "1" || f[1] == "2") && KeyIdOk(f[2])
              && f[3] != "" && (forall i :: 0 <= i < |f[3]| ==> HexCode(f[3][i]))
  {
    forall i | 0 <= i < |f[3]| ensures IsHex(f[3][i]) <==> HexCode(f[3][i]) { HexValIs(f[3][i]); }
    hide KeyIdOk, IsHex, HexCode;
  }

  /** Key ids are the numbers from 0 to 255, those above 99 with three digits and the others with
      one or two. */
  lemma KeyIdIff(s: string)
    ensures KeyIdOk(s) <==>
              Digits(s, 1, 3) && Number(s) <= 255 && (|s| == 3 <==> Number(s) >= 100)
  {
    if Digits(s, 1, 3) {
      NumberIs(s);
    }
  }

  function DigitOf(s: string, i: nat): int
    requires i < |s|
  {
    s[i] as int - '0' as int
  }

  lemma NumberIs(s: string)
    requires Digits(s, 1, 3)
    ensures Number(s) ==
            if |s| == 1 then DigitOf(s, 0)
            else if |s| == 2 then 10 * DigitOf(s, 0) + DigitOf(s, 1)
            else 100 * DigitOf(s, 0) + 10 * DigitOf(s, 1) + DigitOf(s, 2)
  {
    assert s[..|s|] == s;
    if |s| >= 2 { assert s[..|s| - 1][..|s| - 2] == s[..|s| - 2]; }
  }
}
