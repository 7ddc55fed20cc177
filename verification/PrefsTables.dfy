/** The three tables that settings.c completes lists from. */
module PrefsTables {
  import opened PrefsRules

  const CIPHER_WARN := 0
  const CIPHER_3DES := 1
  const CIPHER_BLOWFISH := 2
  const CIPHER_AES := 3
  const CIPHER_DES := 4
  const CIPHER_ARCFOUR := 5
  const CIPHER_CHACHA20 := 6
  const CIPHER_AESGCM := 7

  function CipherNames(): Table {
    [ KeyVal("aes", CIPHER_AES, -1, -1),
      KeyVal("chacha20", CIPHER_CHACHA20, CIPHER_AES, 1),
      KeyVal("aesgcm", CIPHER_AESGCM, CIPHER_CHACHA20, 1),
      KeyVal("3des", CIPHER_3DES, -1, -1),
      KeyVal("WARN", CIPHER_WARN, -1, -1),
      KeyVal("des", CIPHER_DES, -1, -1),
      KeyVal("blowfish", CIPHER_BLOWFISH, -1, -1),
      KeyVal("arcfour", CIPHER_ARCFOUR, -1, -1) ]
  }

  const KEX_WARN := 0
  const KEX_DHGROUP1 := 1
  const KEX_DHGROUP14 := 2
  const KEX_DHGROUP15 := 3
  const KEX_DHGROUP16 := 4
  const KEX_DHGROUP17 := 5
  const KEX_DHGROUP18 := 6
  const KEX_DHGEX := 7
  const KEX_RSA := 8
  const KEX_ECDH := 9
  const KEX_NTRU_HYBRID := 10
  const KEX_MLKEM_25519_HYBRID := 11
  const KEX_MLKEM_NIST_HYBRID := 12

  function KexNames(): Table {
    [ KeyVal("ntru-curve25519", KEX_NTRU_HYBRID, -1, 1),
      KeyVal("mlkem-curve25519", KEX_MLKEM_25519_HYBRID, KEX_NTRU_HYBRID, 1),
      KeyVal("mlkem-nist", KEX_MLKEM_NIST_HYBRID, KEX_MLKEM_25519_HYBRID, 1),
      KeyVal("ecdh", KEX_ECDH, -1, 1),
      KeyVal("dh-gex-sha1", KEX_DHGEX, -1, -1),
      KeyVal("dh-group14-sha1", KEX_DHGROUP14, -1, -1),
      KeyVal("dh-group1-sha1", KEX_DHGROUP1, KEX_WARN, 1),
      KeyVal("rsa", KEX_RSA, KEX_WARN, -1),
      KeyVal("dh-group15-sha512", KEX_DHGROUP15, KEX_DHGROUP14, -1),
      KeyVal("dh-group16-sha512", KEX_DHGROUP16, KEX_DHGROUP15, -1),
      KeyVal("dh-group17-sha512", KEX_DHGROUP17, KEX_DHGROUP16, 1),
      KeyVal("dh-group18-sha512", KEX_DHGROUP18, KEX_DHGROUP17, 1),
      KeyVal("WARN", KEX_WARN, -1, -1) ]
  }

  const HK_WARN := 0
  const HK_RSA := 1
  const HK_DSA := 2
  const HK_ECDSA := 3
  const HK_ED25519 := 4
  const HK_ED448 := 5

  function HkNames(): Table {
    [ KeyVal("ed25519", HK_ED25519, -1, 1),
      KeyVal("ed448", HK_ED448, -1, 1),
      KeyVal("ecdsa", HK_ECDSA, -1, -1),
      KeyVal("dsa", HK_DSA, -1, -1),
      KeyVal("rsa", HK_RSA, -1, -1),
      KeyVal("WARN", HK_WARN, -1, -1) ]
  }

  ghost predicate TextOk(s: string, v: int, value: string -> int) { s != "" && ',' !in s && value(s) == v }

  /** Row `i` of a table: its value and its name lead back to it, and its anchor
      is an earlier link of the chain. */
  ghost predicate RowOk(tab: Table, i: nat, index: int -> nat, value: string -> int, rank: int -> nat)
    requires i < |tab|
  {
    var e := tab[i];
    && 0 <= e.v < 32 && index(e.v) == i && TextOk(e.s, e.v, value)
    && (e.vrel == -1 || (0 <= e.vrel < 32 && index(e.vrel) < |tab| && tab[index(e.vrel)].v == e.vrel && rank(e.vrel) < rank(e.v)))
  }

  /** A table of such rows will do. */
  lemma TableFromRows(tab: Table, index: int -> nat, value: string -> int, rank: int -> nat)
    requires forall i :: 0 <= i < |tab| ==> RowOk(tab, i, index, value, rank)
    ensures TableOk(tab) && NamesOk(tab)
  {
    forall i, j | 0 <= i < j < |tab| ensures tab[i].v != tab[j].v && tab[i].s != tab[j].s {
      assert RowOk(tab, i, index, value, rank) && RowOk(tab, j, index, value, rank);
    }
    forall i | 0 <= i < |tab| ensures tab[i].vrel == -1 || InTable(tab, tab[i].vrel) {
      assert RowOk(tab, i, index, value, rank);
    }
    var ranks := seq(|tab|, i requires 0 <= i < |tab| => rank(tab[i].v));
    forall i, j | 0 <= i < |tab| && 0 <= j < |tab| && tab[i].vrel == tab[j].v ensures ranks[j] < ranks[i] {
      assert RowOk(tab, i, index, value, rank) && RowOk(tab, j, index, value, rank);
    }
    assert Ranked(tab, ranks);
    forall i | 0 <= i < |tab| ensures 0 <= tab[i].v < 32 && tab[i].s != "" && ',' !in tab[i].s {
      assert RowOk(tab, i, index, value, rank);
    }
  }

  function CipherIndex(v: int): nat {
    match v case 3 => 0 case 6 => 1 case 7 => 2 case 1 => 3 case 0 => 4 case 4 => 5 case 2 => 6 case _ => 7
  }

  function CipherValue(s: string): int {
    if |s| == 3 then (if s[0] == 'a' then 3 else 4)
    else if |s| == 4 then (if s[0] == '3' then 1 else 0)
    else if |s| == 6 then 7
    else if s == "chacha20" then 6
    else if |s| == 8 then 2
    else 5
  }

  function CipherRank(v: int): nat { if v == 6 then 1 else if v == 7 then 2 else 0 }

  lemma CipherRow(i: nat)
    requires i < 8
    ensures |CipherNames()| == 8 && RowOk(CipherNames(), i, CipherIndex, CipherValue, CipherRank)
  {
    var t := CipherNames();
    if i == 0 { assert t[i].s == "aes"; }
    else if i == 1 { assert t[i].s == "chacha20"; }
    else if i == 2 { assert t[i].s == "aesgcm"; }
    else if i == 3 { assert t[i].s == "3des"; }
    else if i == 4 { assert t[i].s == "WARN"; }
    else if i == 5 { assert t[i].s == "des"; }
    else if i == 6 { assert t[i].s == "blowfish"; assert t[i].s[0] != "chacha20"[0]; }
    else { assert t[i].s == "arcfour"; }
  }

  lemma CipherTable()
    ensures TableOk(CipherNames()) && NamesOk(CipherNames())
  {
    forall i | 0 <= i < |CipherNames()| ensures RowOk(CipherNames(), i, CipherIndex, CipherValue, CipherRank) { CipherRow(i); }
    TableFromRows(CipherNames(), CipherIndex, CipherValue, CipherRank);
  }

  function KexIndex(v: int): nat {
    match v
    case 10 => 0 case 11 => 1 case 12 => 2 case 9 => 3 case 7 => 4 case 2 => 5 case 1 => 6
    case 8 => 7 case 3 => 8 case 4 => 9 case 5 => 10 case 6 => 11 case _ => 12
  }

  function KexValue(s: string): int {
    if |s| == 15 then (if s[0] == 'n' then 10 else 2)
    else if |s| == 16 then 11
    else if |s| == 10 then 12
    else if |s| == 4 then (if s[0] == 'e' then 9 else 0)
    else if |s| == 11 then 7
    else if |s| == 14 then 1
    else if |s| == 3 then 8
    else if |s| == 17 then (match s[9] case '5' => 3 case '6' => 4 case '7' => 5 case _ => 6)
    else 0
  }

  function KexRank(v: int): nat {
    match v case 11 => 1 case 12 => 2 case 1 => 1 case 8 => 1 case 3 => 1 case 4 => 2 case 5 => 3 case 6 => 4 case _ => 0
  }

  lemma KexTexts()
    ensures TextOk("ntru-curve25519", 10, KexValue) && TextOk("mlkem-curve25519", 11, KexValue) && TextOk("mlkem-nist", 12, KexValue)
    ensures TextOk("ecdh", 9, KexValue) && TextOk("rsa", 8, KexValue) && TextOk("WARN", 0, KexValue)
  {
  }

  lemma DhTexts()
    ensures TextOk("dh-gex-sha1", 7, KexValue) && TextOk("dh-group14-sha1", 2, KexValue) && TextOk("dh-group1-sha1", 1, KexValue)
  {
  }

  lemma DhGroupTexts()
    ensures TextOk("dh-group15-sha512", 3, KexValue) && TextOk("dh-group16-sha512", 4, KexValue)
    ensures TextOk("dh-group17-sha512", 5, KexValue) && TextOk("dh-group18-sha512", 6, KexValue)
  {
  }

  lemma KexRow(i: nat)
    requires i < 13
    ensures |KexNames()| == 13 && RowOk(KexNames(), i, KexIndex, KexValue, KexRank)
  {
    hide TextOk, KexValue;
    KexTexts();
    DhTexts();
    DhGroupTexts();
  }

  lemma KexTable()
    ensures TableOk(KexNames()) && NamesOk(KexNames())
  {
    forall i | 0 <= i < |KexNames()| ensures RowOk(KexNames(), i, KexIndex, KexValue, KexRank) { KexRow(i); }
    TableFromRows(KexNames(), KexIndex, KexValue, KexRank);
  }

  function HkIndex(v: int): nat {
    match v case 4 => 0 case 5 => 1 case 3 => 2 case 2 => 3 case 1 => 4 case _ => 5
  }

  function HkValue(s: string): int {
    if |s| == 7 then 4
    else if |s| == 5 then (if s[1] == 'd' then 5 else 3)
    else if |s| == 3 then (if s[0] == 'd' then 2 else 1)
    else 0
  }

  lemma HkRow(i: nat)
    requires i < 6
    ensures |HkNames()| == 6 && RowOk(HkNames(), i, HkIndex, HkValue, NoRank)
  {
    var t := HkNames();
    if i == 0 { assert t[i].s == "ed25519"; }
    else if i == 1 { assert t[i].s == "ed448"; }
    else if i == 2 { assert t[i].s == "ecdsa"; }
    else if i == 3 { assert t[i].s == "dsa"; }
    else if i == 4 { assert t[i].s == "rsa"; }
    else { assert t[i].s == "WARN"; }
  }

  function NoRank(v: int): nat { 0 }

  lemma HkTable()
    ensures TableOk(HkNames()) && NamesOk(HkNames())
  {
    forall i | 0 <= i < |HkNames()| ensures RowOk(HkNames(), i, HkIndex, HkValue, NoRank) { HkRow(i); }
    TableFromRows(HkNames(), HkIndex, HkValue, NoRank);
  }
}
