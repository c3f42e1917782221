/** The text of a cache key, and why the three key families never meet. */
module KeySpace {
  import opened Domain

  const USER_KEY_PREFIX := "user:"
  const EMAIL_KEY_PREFIX := "user:email:"
  const NICK_KEY_PREFIX := "user:nick:"

  function HexDigit(n: int): char
    requires 0 <= n < 16
  {
    "0123456789abcdef"[n]
  }

  function Hex(bs: seq<Byte>): (s: string)
    ensures |s| == 2 * |bs|
  {
    if bs == [] then "" else
    var b := bs[0] as int;
    [HexDigit(b / 16), HexDigit(b % 16)] + Hex(bs[1..])
  }

  /** The text form of section 4 of RFC 9562: five groups of lower-case hex digits. */
  function UuidText(id: Uuid): (s: string)
    ensures |s| == 36
  {
    Hex(id[..4]) + "-" + Hex(id[4..6]) + "-" + Hex(id[6..8]) + "-" + Hex(id[8..10]) + "-" + Hex(id[10..])
  }

  function KeyText(k: Key): string {
    match k
    case ById(id) => USER_KEY_PREFIX + UuidText(id)
    case ByEmail(email) => EMAIL_KEY_PREFIX + email
    case ByNickname(nickname) => NICK_KEY_PREFIX + nickname
  }

  /** The key texts themselves, and the text of a UUID: byte by byte two lower-case hex digits, high
      half first, with a dash after the fourth, sixth, eighth and tenth byte. */
  lemma KeyTexts(id: Uuid, email: string, nickname: string)
    ensures KeyText(ById(id)) == "user:" + UuidText(id)
    ensures KeyText(ByEmail(email)) == "user:email:" + email
    ensures KeyText(ByNickname(nickname)) == "user:nick:" + nickname
  {
  }

  /** Where the digits of byte i stand. */
  function DigitsAt(i: nat): nat {
    2 * i + if i < 4 then 0 else if i < 6 then 1 else if i < 8 then 2 else if i < 10 then 3 else 4
  }

  lemma {:induction false} UuidDigits(id: Uuid, i: nat)
    requires i < 16
    ensures var s, at := UuidText(id), DigitsAt(i);
            s[at] == HexDigit(id[i] as int / 16) && s[at + 1] == HexDigit(id[i] as int % 16)
  {
    UuidGroups(id);
    DigitsOfGroups(UuidText(id), id, i);
  }

  lemma UuidDashes(id: Uuid)
    ensures var s := UuidText(id); s[8] == '-' && s[13] == '-' && s[18] == '-' && s[23] == '-'
  {
  }

  lemma {:induction false} DigitsOfGroups(s: string, id: Uuid, i: nat)
    requires i < 16 && |s| == 36
    requires s[..8] == Hex(id[..4]) && s[9..13] == Hex(id[4..6]) && s[14..18] == Hex(id[6..8])
    requires s[19..23] == Hex(id[8..10]) && s[24..] == Hex(id[10..])
    ensures s[DigitsAt(i)] == HexDigit(id[i] as int / 16) && s[DigitsAt(i) + 1] == HexDigit(id[i] as int % 16)
  {
    if i < 4 {
      GroupDigits(s, 0, id[..4], i);
    } else if i < 6 {
      GroupDigits(s, 9, id[4..6], i - 4);
    } else if i < 8 {
      GroupDigits(s, 14, id[6..8], i - 6);
    } else if i < 10 {
      GroupDigits(s, 19, id[8..10], i - 8);
    } else {
      assert s[24..24 + 2 * |id[10..]|] == s[24..];
      GroupDigits(s, 24, id[10..], i - 10);
    }
  }

  lemma {:induction false} GroupDigits(s: string, from: nat, group: seq<Byte>, i: nat)
    requires i < |group| && from + 2 * |group| <= |s| && s[from..from + 2 * |group|] == Hex(group)
    ensures s[from + 2 * i] == HexDigit(group[i] as int / 16) && s[from + 2 * i + 1] == HexDigit(group[i] as int % 16)
  {
    HexDigitsAt(group, i);
    assert s[from + 2 * i] == s[from..from + 2 * |group|][2 * i];
    assert s[from + 2 * i + 1] == s[from..from + 2 * |group|][2 * i + 1];
  }

  lemma {:induction false} HexDigitsAt(bs: seq<Byte>, i: nat)
    requires i < |bs|
    ensures Hex(bs)[2 * i] == HexDigit(bs[i] as int / 16) && Hex(bs)[2 * i + 1] == HexDigit(bs[i] as int % 16)
  {
    if i > 0 {
      HexDigitsAt(bs[1..], i - 1);
      assert Hex(bs)[2..] == Hex(bs[1..]);
    }
  }

  lemma HexDigitsInOrder(n: int)
    requires 0 <= n < 16
    ensures HexDigit(n) == if n < 10 then ('0' as int + n) as char else ('a' as int + n - 10) as char
  {
  }

  lemma {:induction false} HexInjective(a: seq<Byte>, b: seq<Byte>)
    requires |a| == |b| && Hex(a) == Hex(b)
    ensures a == b
  {
    if a != [] {
      var (x, y) := (a[0] as int, b[0] as int);
      assert Hex(a)[0] == HexDigit(x / 16) && Hex(a)[1] == HexDigit(x % 16) && Hex(a)[2..] == Hex(a[1..]);
      assert Hex(b)[0] == HexDigit(y / 16) && Hex(b)[1] == HexDigit(y % 16) && Hex(b)[2..] == Hex(b[1..]);
      HexDigitInjective(x / 16, y / 16);
      HexDigitInjective(x % 16, y % 16);
      HexInjective(a[1..], b[1..]);
      assert a == [a[0]] + a[1..] && b == [b[0]] + b[1..];
    }
  }

  lemma HexDigitInjective(m: int, n: int)
    requires 0 <= m < 16 && 0 <= n < 16 && HexDigit(m) == HexDigit(n)
    ensures m == n
  {
  }

  /** Where the five groups sit in the text. */
  lemma UuidGroups(id: Uuid)
    ensures var s := UuidText(id);
            && s[..8] == Hex(id[..4]) && s[9..13] == Hex(id[4..6]) && s[14..18] == Hex(id[6..8])
            && s[19..23] == Hex(id[8..10]) && s[24..] == Hex(id[10..])
  {
  }

  lemma UuidTextInjective(a: Uuid, b: Uuid)
    requires UuidText(a) == UuidText(b)
    ensures a == b
  {
    UuidGroups(a);
    UuidGroups(b);
    HexInjective(a[..4], b[..4]);
    HexInjective(a[4..6], b[4..6]);
    HexInjective(a[6..8], b[6..8]);
    HexInjective(a[8..10], b[8..10]);
    HexInjective(a[10..], b[10..]);
    forall i | 0 <= i < 16 ensures a[i] == b[i] {
      assert i < 4 ==> a[i] == a[..4][i] == b[..4][i];
      assert 4 <= i < 6 ==> a[i] == a[4..6][i - 4] == b[4..6][i - 4];
      assert 6 <= i < 8 ==> a[i] == a[6..8][i - 6] == b[6..8][i - 6];
      assert 8 <= i < 10 ==> a[i] == a[8..10][i - 8] == b[8..10][i - 8];
      assert 10 <= i ==> a[i] == a[10..][i - 10] == b[10..][i - 10];
    }
  }

  /** "user:" is a prefix of the other two, yet the two letters after it tell the families apart:
      no hex text starts with "n", nor has "m" in second place. */
  lemma FamilyLetters(k: Key)
    ensures var s := KeyText(k);
            && 6 < |s|
            && (k.ById? ==> s[5] != 'n' && s[6] != 'm')
            && (k.ByEmail? ==> s[5] == 'e' && s[6] == 'm')
            && (k.ByNickname? ==> s[5] == 'n')
  {
    match k
    case ById(id) => IdLetters(id);
    case ByEmail(email) => PrefixLetters(EMAIL_KEY_PREFIX, email);
    case ByNickname(nickname) => PrefixLetters(NICK_KEY_PREFIX, nickname);
  }

  lemma PrefixLetters(prefix: string, rest: string)
    requires 6 < |prefix|
    ensures (prefix + rest)[5] == prefix[5] && (prefix + rest)[6] == prefix[6]
  {
  }

  lemma IdLetters(id: Uuid)
    ensures var s := KeyText(ById(id)); 6 < |s| && s[5] != 'n' && s[6] != 'm'
  {
    var (s, text, b) := (KeyText(ById(id)), UuidText(id), id[0] as int);
    assert s[5] == text[0] && s[6] == text[1];
    FirstLetters(id);
    assert HexDigit(b / 16) != 'n' && HexDigit(b % 16) != 'm';
  }

  lemma FirstLetters(id: Uuid)
    ensures UuidText(id)[0] == HexDigit(id[0] as int / 16) && UuidText(id)[1] == HexDigit(id[0] as int % 16)
  {
    var head := id[..4];
    assert head[0] == id[0];
    assert UuidText(id)[0] == Hex(head)[0] && UuidText(id)[1] == Hex(head)[1];
  }

  /** Each key function is injective, and the three have disjoint images. */
  lemma KeyTextInjective(k: Key, k': Key)
    ensures KeyText(k) == KeyText(k') <==> k == k'
  {
    var s, s' := KeyText(k), KeyText(k');
    if s == s' {
      FamilyLetters(k);
      FamilyLetters(k');
      if k.ById? {
        assert UuidText(k.id) == s[5..] == s'[5..] == UuidText(k'.id);
        UuidTextInjective(k.id, k'.id);
      } else if k.ByEmail? {
        assert k.email == s[11..] == s'[11..] == k'.email;
      } else {
        assert k.nickname == s[10..] == s'[10..] == k'.nickname;
      }
    }
  }

  /** A Redis database keyed by text stands for a store keyed by Key. */
  ghost predicate Represents<V(!new)>(db: map<string, V>, m: map<Key, V>) {
    && (forall k :: k in m <==> KeyText(k) in db)
    && (forall k | k in m :: db[KeyText(k)] == m[k])
  }

  /** SET and DEL on key texts act as update and removal on keys: no key family disturbs another. */
  lemma CommandsRepresented<V(!new)>(db: map<string, V>, m: map<Key, V>, k: Key, v: V)
    requires Represents(db, m)
    ensures Represents(db[KeyText(k) := v], m[k := v])
    ensures Represents(db - {KeyText(k)}, m - {k})
  {
    forall k' ensures KeyText(k') == KeyText(k) <==> k' == k {
      KeyTextInjective(k', k);
    }
  }
}
