/**
  What the derived values depend on. For each derivation and any two different inputs there is
  a hash or MAC of the right output length under which the results differ, so nothing that
  should go into a key, a tag or an identifier is left out.
*/
module Derivations {
  import opened Bytes
  import opened PrimeField
  import opened Transcript
  import opened Suite
  import opened AuthCrypto
  import opened AuthExchange
  import Hkdf
  import TypedPayloads
  import GuardedScan
  import Payloads
  import RoleSet

  /** 32 equal bytes: three of them serve as outputs that cannot be confused. */
  function Block(v: byte): (r: seq<byte>)
    ensures |r| == 32 && r[0] == v
  {
    seq(32, i => v)
  }

  // ---- SHA-256 identifiers ----

  function Sha(f: seq<byte>): (h: seq<byte> -> seq<byte>)
    ensures h(f) == Block(0) && (forall g: seq<byte> | g != f :: h(g) == Block(1))
    ensures forall b: seq<byte> :: |h(b)| == 32
  {
    (b: seq<byte>) => if b == f then Block(0) else Block(1)
  }

  lemma ResuiteSha(S: Suite, f: seq<byte>)
    requires Valid(S)
    ensures Valid(S.(sha256 := Sha(f)))
  {
    hide Prime;
  }

  /** The pid covers device key, nonce, ephemeral and server key. */
  lemma PidSeparates(S: Suite, p: nat, nonceC: seq<byte>, ephC: nat, serverPub: nat,
                     p': nat, nonceC': seq<byte>, ephC': nat, serverPub': nat)
    returns (h: seq<byte> -> seq<byte>)
    requires Valid(S) && p < S.q && ephC < S.q && serverPub < S.q && p' < S.q && ephC' < S.q && serverPub' < S.q
    requires |nonceC| == |nonceC'| == 32 && (p, nonceC, ephC, serverPub) != (p', nonceC', ephC', serverPub')
    ensures Valid(S.(sha256 := h))
    ensures Pid(S.(sha256 := h), p, nonceC, ephC, serverPub) != Pid(S.(sha256 := h), p', nonceC', ephC', serverPub')
  {
    hide LE, Ascii, Prime;
    var head := LE(15, 4) + Ascii("iot-auth/pid/v1");
    var f, g := PidInput(S, p, nonceC, ephC, serverPub), PidInput(S, p', nonceC', ephC', serverPub');
    if f == g {
      ConcatInjective(head, S.encode(p) + (nonceC + S.encode(ephC) + S.encode(serverPub)),
                      head, S.encode(p') + (nonceC' + S.encode(ephC') + S.encode(serverPub')));
      FourFields(S.encode(p), nonceC, S.encode(ephC), S.encode(serverPub), S.encode(p'), nonceC', S.encode(ephC'), S.encode(serverPub'));
      EncodeInjective(S, p, p');
      EncodeInjective(S, ephC, ephC');
      EncodeInjective(S, serverPub, serverPub');
    }
    h := Sha(f);
    ResuiteSha(S, f);
    assert Block(0)[0] != Block(1)[0];
  }

  lemma FourFields(a: seq<byte>, b: seq<byte>, c: seq<byte>, d: seq<byte>, a': seq<byte>, b': seq<byte>, c': seq<byte>, d': seq<byte>)
    requires |a| == |a'| && |b| == |b'| && |c| == |c'| && a + (b + c + d) == a' + (b' + c' + d')
    ensures a == a' && b == b' && c == c' && d == d'
  {
    ConcatInjective(a, b + c + d, a', b' + c' + d');
    ConcatAssoc(b, c, d);
    ConcatAssoc(b', c', d');
    ConcatInjective(b, c + d, b', c' + d');
    ConcatInjective(c, d, c', d');
  }

  /** The replay key covers pid, nonce and ephemeral: it is theirs alone. */
  lemma ReplayKeySeparates(S: Suite, m: TypedPayloads.Auth1, n: TypedPayloads.Auth1) returns (h: seq<byte> -> seq<byte>)
    requires Valid(S) && m.ephC < S.q && n.ephC < S.q && |m.pid| == |m.nonceC| == |n.pid| == |n.nonceC| == 32
    requires (m.pid, m.nonceC, m.ephC) != (n.pid, n.nonceC, n.ephC)
    ensures Valid(S.(sha256 := h)) && KeyOf(S.(sha256 := h), m) != KeyOf(S.(sha256 := h), n)
  {
    hide Ascii, Prime;
    var head := Ascii("iot-auth/replay-key/v2");
    var f, g := head + m.pid + m.nonceC + S.encode(m.ephC), head + n.pid + n.nonceC + S.encode(n.ephC);
    if f == g {
      ConcatInjective(head + m.pid + m.nonceC, S.encode(m.ephC), head + n.pid + n.nonceC, S.encode(n.ephC));
      ConcatInjective(head + m.pid, m.nonceC, head + n.pid, n.nonceC);
      ConcatInjective(head, m.pid, head, n.pid);
      EncodeInjective(S, m.ephC, n.ephC);
    }
    h := Sha(f);
    ResuiteSha(S, f);
    assert Block(0)[0] != Block(1)[0];
  }

  /** The same in C, on the raw fields. */
  lemma RawKeySeparates(S: Suite, m: Payloads.RawAuth1, n: Payloads.RawAuth1) returns (h: seq<byte> -> seq<byte>)
    requires Valid(S) && Payloads.Shaped(m) && Payloads.Shaped(n) && (m.pid, m.nonceC, m.ephC) != (n.pid, n.nonceC, n.ephC)
    ensures Valid(S.(sha256 := h)) && GuardedScan.RawKey(S.(sha256 := h), m) != GuardedScan.RawKey(S.(sha256 := h), n)
  {
    hide Ascii, Prime;
    var head := Ascii("iot-auth/replay-key/v2");
    var f, g := head + m.pid + m.nonceC + m.ephC, head + n.pid + n.nonceC + n.ephC;
    if f == g {
      ConcatInjective(head + m.pid + m.nonceC, m.ephC, head + n.pid + n.nonceC, n.ephC);
      ConcatInjective(head + m.pid, m.nonceC, head + n.pid, n.nonceC);
      ConcatInjective(head, m.pid, head, n.pid);
    }
    h := Sha(f);
    ResuiteSha(S, f);
    assert Block(0)[0] != Block(1)[0];
  }

  /** The transcript hash covers every part of the run. */
  lemma KcHashSeparates(S: Suite, p: Parts, r: Parts) returns (h: seq<byte> -> seq<byte>)
    requires Valid(S) && ShapedParts(S, p) && ShapedParts(S, r) && p != r
    ensures Valid(S.(sha256 := h)) && KcHash(S.(sha256 := h), p) != KcHash(S.(sha256 := h), r)
  {
    hide Frame, Ascii, Prime, LE;
    var f, g := KcFrame(S, p), KcFrame(S, r);
    if f == g { KcFrameBinds(S, p, r); }
    h := Sha(f);
    ResuiteSha(S, f);
    SameKcFrame(S, h, p);
    SameKcFrame(S, h, r);
    assert Block(0)[0] != Block(1)[0];
  }

  lemma SameKcFrame(S: Suite, h: seq<byte> -> seq<byte>, p: Parts)
    ensures KcFrame(S.(sha256 := h), p) == KcFrame(S, p)
  {
    hide Frame, Ascii, LE;
    assert KcFields(S.(sha256 := h), p) == KcFields(S, p);
  }

  // ---- HKDF in one block ----

  /** A 32-byte output is one block, so key derivation is HMAC twice. */
  lemma OneBlock(hmac: Hkdf.Hmac, prk: seq<byte>, info: seq<byte>)
    requires Hkdf.Digests(hmac)
    ensures Hkdf.Expand(hmac, prk, info, 32) == hmac(prk, info + [1])
  {
    assert Hkdf.T(hmac, prk, info, 1) == hmac(prk, Hkdf.T(hmac, prk, info, 0) + info + [1]);
    assert [] + info + [1] == info + [1];
    assert Hkdf.Blocks(hmac, prk, info, 1) == Hkdf.Blocks(hmac, prk, info, 0) + Hkdf.T(hmac, prk, info, 1);
    assert Hkdf.BlocksFor(32) == 1;
  }

  /** HKDF in 32 bytes is HMAC of HMAC, with 32 zero bytes for an empty salt. */
  lemma HkdfIsTwoHmacs(hmac: Hkdf.Hmac, salt: seq<byte>, ikm: seq<byte>, info: seq<byte>)
    requires Hkdf.Digests(hmac)
    ensures Hkdf.Expand(hmac, Hkdf.Extract(hmac, salt, ikm), info, 32)
         == hmac(hmac(if salt == [] then Block(0) else salt, ikm), info + [1])
  {
    OneBlock(hmac, Hkdf.Extract(hmac, salt, ikm), info);
    assert Hkdf.Zeros(32) == Block(0);
  }

  // ---- The session key ----

  function SessionInfo(S: Suite, pid: seq<byte>, ephC: nat, ephS: nat): seq<byte> {
    Ascii("session key v2") + pid + S.encode(ephC) + S.encode(ephS)
  }

  function FollowAt(salt: seq<byte>, ikm: seq<byte>, last: seq<byte>, k: seq<byte>, m: seq<byte>): (r: seq<byte>)
    ensures |r| == 32
  {
    if |m| == 32 && k == salt && m == ikm then Block(0)
    else if |m| != 32 && k == Block(0) && m == last then Block(2) else Block(1)
  }

  /** A MAC that follows one derivation and answers everything else alike. */
  function Follow(salt: seq<byte>, ikm: seq<byte>, last: seq<byte>): (h: Hkdf.Hmac)
    ensures forall k: seq<byte>, m: seq<byte> :: |h(k, m)| == 32
    ensures forall k: seq<byte>, m: seq<byte> :: h(k, m) == FollowAt(salt, ikm, last, k, m)
  {
    (k: seq<byte>, m: seq<byte>) => FollowAt(salt, ikm, last, k, m)
  }

  lemma BlocksDiffer()
    ensures Block(0) != Block(1) && Block(0) != Block(2) && Block(1) != Block(2)
  {
    assert Block(0)[0] != Block(1)[0] && Block(0)[0] != Block(2)[0] && Block(1)[0] != Block(2)[0];
  }

  lemma ResuiteHmac(S: Suite, h: Hkdf.Hmac)
    requires Valid(S) && forall k: seq<byte>, m: seq<byte> :: |h(k, m)| == 32
    ensures Valid(S.(hmac := h))
  {
    hide Prime;
  }

  /** The session key as HMACs: the Diffie-Hellman point is the keying material. */
  lemma SessionKeyFormula(S: Suite, shared: nat, nonceC: seq<byte>, nonceS: seq<byte>, pid: seq<byte>, ephC: nat, ephS: nat)
    requires Valid(S) && |nonceC| == 32
    ensures SessionKey(S, shared, nonceC, nonceS, pid, ephC, ephS)
         == S.hmac(S.hmac(nonceC + nonceS, S.encode(shared)), SessionInfo(S, pid, ephC, ephS) + [1])
  {
    hide Ascii, Hkdf.Expand, Hkdf.Extract, Prime;
    HkdfIsTwoHmacs(S.hmac, nonceC + nonceS, S.encode(shared), SessionInfo(S, pid, ephC, ephS));
  }

  /**
    The session key covers the shared secret, both nonces, the pid and both ephemerals: change
    any of them and some MAC gives another key.
  */
  lemma SessionKeySeparates(S: Suite, shared: nat, nonceC: seq<byte>, nonceS: seq<byte>, pid: seq<byte>, ephC: nat, ephS: nat,
                            shared': nat, nonceC': seq<byte>, nonceS': seq<byte>, pid': seq<byte>, ephC': nat, ephS': nat)
    returns (h: Hkdf.Hmac)
    requires Valid(S) && shared < S.q && ephC < S.q && ephS < S.q && shared' < S.q && ephC' < S.q && ephS' < S.q
    requires |nonceC| == |nonceS| == |pid| == |nonceC'| == |nonceS'| == |pid'| == 32
    requires (shared, nonceC, nonceS, pid, ephC, ephS) != (shared', nonceC', nonceS', pid', ephC', ephS')
    ensures Valid(S.(hmac := h))
    ensures SessionKey(S.(hmac := h), shared, nonceC, nonceS, pid, ephC, ephS)
         != SessionKey(S.(hmac := h), shared', nonceC', nonceS', pid', ephC', ephS')
  {
    hide Ascii, SessionKey, Prime, Block, Follow;
    var salt, ikm, info := nonceC + nonceS, S.encode(shared), SessionInfo(S, pid, ephC, ephS);
    var salt', ikm', info' := nonceC' + nonceS', S.encode(shared'), SessionInfo(S, pid', ephC', ephS');
    if salt == salt' && ikm == ikm' && info == info' {
      ConcatInjective(nonceC, nonceS, nonceC', nonceS');
      EncodeInjective(S, shared, shared');
      InfoBinds(S, pid, ephC, ephS, pid', ephC', ephS');
    }
    h := Follow(salt, ikm, info + [1]);
    ResuiteHmac(S, h);
    SessionKeyFormula(S.(hmac := h), shared, nonceC, nonceS, pid, ephC, ephS);
    SessionKeyFormula(S.(hmac := h), shared', nonceC', nonceS', pid', ephC', ephS');
    assert SessionInfo(S.(hmac := h), pid, ephC, ephS) == info && SessionInfo(S.(hmac := h), pid', ephC', ephS') == info';
    TwoStages(h, salt, ikm, info, salt', ikm', info');
  }

  lemma TwoStages(h: Hkdf.Hmac, salt: seq<byte>, ikm: seq<byte>, info: seq<byte>, salt': seq<byte>, ikm': seq<byte>, info': seq<byte>)
    requires |ikm| == |ikm'| == 32 && |info| > 32 && |info'| > 32 && (salt, ikm, info) != (salt', ikm', info')
    requires h == Follow(salt, ikm, info + [1])
    ensures h(h(salt, ikm), info + [1]) != h(h(salt', ikm'), info' + [1])
  {
    hide Block, Follow;
    BlocksDiffer();
    assert info' + [1] == info + [1] ==> info' == info by {
      ConcatInjectiveTail(info, info');
    }
  }

  lemma ConcatInjectiveTail(a: seq<byte>, b: seq<byte>)
    ensures a + [1] == b + [1] ==> a == b
  {
    if a + [1] == b + [1] {
      assert |a| + 1 == |a + [1]| == |b + [1]| == |b| + 1;
      ConcatInjective(a, [1], b, [1]);
    }
  }

  lemma InfoBinds(S: Suite, pid: seq<byte>, ephC: nat, ephS: nat, pid': seq<byte>, ephC': nat, ephS': nat)
    requires Valid(S) && ephC < S.q && ephS < S.q && ephC' < S.q && ephS' < S.q && |pid| == |pid'|
    requires SessionInfo(S, pid, ephC, ephS) == SessionInfo(S, pid', ephC', ephS')
    ensures pid == pid' && ephC == ephC' && ephS == ephS'
  {
    hide Ascii, Prime;
    var head := Ascii("session key v2");
    ConcatInjective(head + pid + S.encode(ephC), S.encode(ephS), head + pid' + S.encode(ephC'), S.encode(ephS'));
    ConcatInjective(head + pid, S.encode(ephC), head + pid', S.encode(ephC'));
    ConcatInjective(head, pid, head, pid');
    EncodeInjective(S, ephC, ephC');
    EncodeInjective(S, ephS, ephS');
  }

  /** Both sides derive the key from g to the product of the two ephemeral secrets. */
  lemma KeyIsDiffieHellman(S: Suite, server: Server, cred: Credential, d: ClientDraw, draw: ServerDraw)
    requires Valid(S) && Enrolled(S, cred) && Drawn(S, cred, d)
    ensures var m := ClientAuth1(S, cred, d);
            var secret := Mul(S.q, 1, Mul(S.q, d.ephSecret, draw.ephSecret));
            var key := SessionKey(S, secret, d.nonceC, draw.nonceS, ClientPid(S, cred, d),
                                  Mul(S.q, 1, d.ephSecret), Mul(S.q, 1, draw.ephSecret));
            ServerSession(S, server, draw, m) == key == ClientSession(S, cred, d, ReplyTo(S, server, draw, m))
  {
    hide Mul, SessionKey, PidInput, RoleSet.Prove, ProveClient, ProveRerand, ProveServer, Confirm, KcHash;
    MulAssoc(S.q, 1, d.ephSecret, draw.ephSecret);
    SharedAgrees(S.q, d.ephSecret, draw.ephSecret);
  }

  // ---- The finished tags ----

  function TagKey(side: string): seq<byte> {
    Ascii(side) + [1]
  }

  function TagAt(th: seq<byte>, key: seq<byte>, k: seq<byte>, m: seq<byte>): (r: seq<byte>)
    ensures |r| == 32
  {
    if |m| == 32 then Block(if k == th && m == key then 0 else 1)
    else if |m| == 7 then Block(if k == Block(0) && m == TagKey("kc s2c") then 2
                                else if k == Block(0) && m == TagKey("kc c2s") then 3 else 1)
    else Block(if k == Block(2) && m == Ascii("server finished") + th then 4
               else if k == Block(3) && m == Ascii("client finished") + th then 5 else 1)
  }

  /** A MAC that follows one confirmation through extract, both direction keys and both tags. */
  function FollowTags(th: seq<byte>, key: seq<byte>): (h: Hkdf.Hmac)
    ensures forall k: seq<byte>, m: seq<byte> :: |h(k, m)| == 32
    ensures forall k: seq<byte>, m: seq<byte> :: h(k, m) == TagAt(th, key, k, m)
  {
    (k: seq<byte>, m: seq<byte>) => TagAt(th, key, k, m)
  }

  /** The two tags as HMACs. */
  lemma ConfirmFormula(S: Suite, key: seq<byte>, th: seq<byte>)
    requires Valid(S) && th != []
    ensures Confirm(S, key, th)
         == Confirmation(S.hmac(S.hmac(S.hmac(th, key), TagKey("kc s2c")), Ascii("server finished") + th),
                         S.hmac(S.hmac(S.hmac(th, key), TagKey("kc c2s")), Ascii("client finished") + th))
  {
    hide Ascii, Hkdf.Expand, Hkdf.Extract, Prime;
    HkdfIsTwoHmacs(S.hmac, th, key, Ascii("kc s2c"));
    HkdfIsTwoHmacs(S.hmac, th, key, Ascii("kc c2s"));
  }

  lemma TagBlock(v: byte, w: byte)
    requires v != w
    ensures Block(v) != Block(w)
  {
    assert Block(v)[0] != Block(w)[0];
  }

  lemma TagsFollowed(th: seq<byte>, key: seq<byte>)
    requires |key| == |th| == 32
    ensures var h := FollowTags(th, key);
            var prk := h(th, key);
            && h(h(prk, TagKey("kc s2c")), Ascii("server finished") + th) == Block(4)
            && h(h(prk, TagKey("kc c2s")), Ascii("client finished") + th) == Block(5)
  {
    hide Block, FollowTags, TagKey, Ascii;
    LabelsDiffer();
    TagBlock(2, 3);
  }

  lemma TagsElsewhere(th: seq<byte>, key: seq<byte>, th': seq<byte>, key': seq<byte>)
    requires |key| == |th| == |key'| == |th'| == 32 && (key, th) != (key', th')
    ensures var h := FollowTags(th, key);
            var prk := h(th', key');
            && h(h(prk, TagKey("kc s2c")), Ascii("server finished") + th') == Block(1)
            && h(h(prk, TagKey("kc c2s")), Ascii("client finished") + th') == Block(1)
  {
    hide Block, FollowTags, TagKey, Ascii;
    LabelsDiffer();
    TagBlock(0, 1);
    TagBlock(1, 2);
    TagBlock(1, 3);
  }

  /**
    The finished tags cover session key and transcript hash, and the two directions are not the
    same: some MAC gives two different tags, and others for any other key or hash.
  */
  lemma ConfirmSeparates(S: Suite, key: seq<byte>, th: seq<byte>, key': seq<byte>, th': seq<byte>) returns (h: Hkdf.Hmac)
    requires Valid(S) && |key| == |th| == |key'| == |th'| == 32 && (key, th) != (key', th')
    ensures Valid(S.(hmac := h))
    ensures var c, c' := Confirm(S.(hmac := h), key, th), Confirm(S.(hmac := h), key', th');
            c.tagS != c.tagC && c.tagS != c'.tagS && c.tagC != c'.tagC
  {
    h := FollowTags(th, key);
    hide Confirm, Prime, Block, FollowTags, TagAt, Ascii, TagKey;
    ResuiteHmac(S, h);
    ConfirmFormula(S.(hmac := h), key, th);
    ConfirmFormula(S.(hmac := h), key', th');
    TagsFollowed(th, key);
    TagsElsewhere(th, key, th', key');
    TagBlock(4, 5);
    TagBlock(4, 1);
    TagBlock(5, 1);
  }

  lemma LabelsDiffer()
    ensures |TagKey("kc s2c")| == |TagKey("kc c2s")| == 7 && TagKey("kc s2c") != TagKey("kc c2s")
  {
    assert TagKey("kc s2c")[3] != TagKey("kc c2s")[3];
  }
}
