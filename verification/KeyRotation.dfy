/**
 Encryption of the stored API keys and rotation of the encryption key, key_pool.py.

 A ciphertext carries the key it was sealed with, so that decrypting with another key fails, as authenticated
 encryption makes it; a stored string that is no ciphertext fails under every key.
 */
module KeyRotation {
  import opened Prelude

  type Key = string

  datatype Stored = Sealed(key: Key, nonce: int, text: string) | Raw(text: string)

  /** The configured secrets; None when not set. */
  datatype Secrets = Secrets(current: Option<Key>, previous: Option<Key>)

  /** What reading a row yields: a plaintext, or the ciphertext itself when no key opens it. */
  datatype Reading = Plain(text: string) | Unopened(stored: Stored)

  function Encrypt(text: string, key: Key, nonce: int): Stored {
    Sealed(key, nonce, text)
  }

  function Decrypt(c: Stored, key: Key): Option<string> {
    if c.Sealed? && c.key == key then Some(c.text) else None
  }

  function Opens(c: Stored, key: Option<Key>): Option<string> {
    match key case Some(k) => Decrypt(c, k) case None => None
  }

  function AsStored(c: Stored): Reading {
    match c case Raw(text) => Plain(text) case Sealed(_, _, _) => Unopened(c)
  }

  /** `_encrypt_key`: without a key, plain text is stored. */
  function StoreKey(text: string, s: Secrets, nonce: int): Stored {
    match s.current case None => Raw(text) case Some(k) => Encrypt(text, k, nonce)
  }

  /** `_decrypt_key`: current key, then previous key, then the stored string as it is. */
  function Read(c: Stored, s: Secrets): Reading {
    if s.current == None then AsStored(c)
    else if Opens(c, s.current).Some? then Plain(Opens(c, s.current).value)
    else if Opens(c, s.previous).Some? then Plain(Opens(c, s.previous).value)
    else AsStored(c)
  }

  /** Re-encryption of one row: only when the previous key opens it and the current one does not. */
  function Renew(c: Stored, s: Secrets, nonce: int): Stored {
    if s.current == None || s.previous == None || Opens(c, s.current).Some? || Opens(c, s.previous) == None then c
    else Encrypt(Opens(c, s.previous).value, s.current.value, nonce)
  }

  function RenewAll(rows: seq<Stored>, s: Secrets, nonces: nat -> int): (r: seq<Stored>)
    ensures |r| == |rows|
    ensures forall i: nat :: i < |rows| ==> r[i] == Renew(rows[i], s, nonces(i))
  {
    if rows == [] then [] else
      var n := |rows| - 1;
      RenewAll(rows[..n], s, nonces) + [Renew(rows[n], s, nonces(n))]
  }

  /** How many positions differ. */
  function Differences(xs: seq<Stored>, ys: seq<Stored>): nat
    requires |xs| == |ys|
  {
    if xs == [] then 0 else
      var n := |xs| - 1;
      Differences(xs[..n], ys[..n]) + if xs[n] != ys[n] then 1 else 0
  }

  datatype Status = Status(total: nat, reEncrypted: nat, pending: nat, keyHash: string)

  /** The first eight characters of the current key's digest, or nothing without a key. */
  function KeyHash(s: Secrets, digest: Key -> string): string {
    match s.current
    case Some(k) => digest(k)[..Min(8, |digest(k)|)]
    case None => ""
  }

  /** How many rows the key opens. */
  function OpenedBy(rows: seq<Stored>, key: Option<Key>): nat {
    if rows == [] then 0 else
      var n := |rows| - 1;
      OpenedBy(rows[..n], key) + if Opens(rows[n], key).Some? then 1 else 0
  }

  /** `get_rotation_status`; without a current key nothing is counted but the total. */
  function StatusOf(rows: seq<Stored>, s: Secrets, digest: Key -> string): Status {
    OpenedByAtMost(rows, s.current);
    if s.current == None then Status(|rows|, 0, 0, KeyHash(s, digest))
    else Status(|rows|, OpenedBy(rows, s.current), |rows| - OpenedBy(rows, s.current), KeyHash(s, digest))
  }

  lemma {:induction false} OpenedByAtMost(rows: seq<Stored>, key: Option<Key>)
    ensures OpenedBy(rows, key) <= |rows|
  {
    if rows != [] {
      OpenedByAtMost(rows[..|rows|-1], key);
    }
  }

  // ----- The program -----

  /** A row of the key table. */
  class KeyRow {
    var keyEncrypted: Stored

    constructor (keyEncrypted: Stored)
      ensures this.keyEncrypted == keyEncrypted
    {
      this.keyEncrypted := keyEncrypted;
    }
  }

  ghost function Contents(rows: seq<KeyRow>): seq<Stored>
    reads rows
  {
    if rows == [] then [] else Contents(rows[..|rows|-1]) + [rows[|rows|-1].keyEncrypted]
  }

  lemma {:induction false} ContentsAt(rows: seq<KeyRow>)
    ensures |Contents(rows)| == |rows|
    ensures forall i :: 0 <= i < |rows| ==> Contents(rows)[i] == rows[i].keyEncrypted
  {
    if rows != [] {
      ContentsAt(rows[..|rows|-1]);
    }
  }

  method ReEncryptStaleKeys(rows: seq<KeyRow>, s: Secrets, nonces: nat -> int) returns (count: nat)
    requires forall i, j :: 0 <= i < j < |rows| ==> rows[i] != rows[j]
    modifies rows
    ensures Contents(rows) == RenewAll(old(Contents(rows)), s, nonces)
    ensures count == Differences(old(Contents(rows)), Contents(rows))
  {
    hide Contents, Differences;
    ghost var was, target := Contents(rows), RenewAll(Contents(rows), s, nonces);
    ContentsAt(rows);
    NoneYet(was, target);
    count := 0;
    if s.current == None || s.previous == None {
      NothingToDo(was, s, nonces);
      return;
    }
    var i := 0;
    while i < |rows|
      invariant 0 <= i <= |rows|
      invariant forall k :: 0 <= k < i ==> rows[k].keyEncrypted == target[k]
      invariant forall k :: i <= k < |rows| ==> rows[k].keyEncrypted == was[k]
      invariant count == Differences(was[..i], target[..i])
    {
      DifferencesStep(was, target, i);
      var renewed := ReEncryptRow(rows[i], s.current.value, s.previous.value, s, nonces(i));
      if renewed {
        count := count + 1;
      }
      i := i + 1;
    }
    ContentsAre(rows, target);
    assert was[..i] == was && target[..i] == target;
  }

  lemma NoneYet(xs: seq<Stored>, ys: seq<Stored>)
    requires |xs| == |ys|
    ensures Differences(xs[..0], ys[..0]) == 0
  {
  }

  lemma ContentsAre(rows: seq<KeyRow>, target: seq<Stored>)
    requires |rows| == |target| && forall k :: 0 <= k < |rows| ==> rows[k].keyEncrypted == target[k]
    ensures Contents(rows) == target
  {
    ContentsAt(rows);
  }

  /** One row: left alone when the current key opens it or neither does. */
  method ReEncryptRow(row: KeyRow, current: Key, previous: Key, ghost s: Secrets, nonce: int) returns (renewed: bool)
    requires s == Secrets(Some(current), Some(previous))
    modifies row
    ensures row.keyEncrypted == Renew(old(row.keyEncrypted), s, nonce)
    ensures renewed <==> row.keyEncrypted != old(row.keyEncrypted)
  {
    if Decrypt(row.keyEncrypted, current).Some? {
      return false;
    }
    var plaintext := Decrypt(row.keyEncrypted, previous);
    if plaintext == None {
      return false;
    }
    row.keyEncrypted := Encrypt(plaintext.value, current, nonce);
    renewed := true;
  }

  method GetRotationStatus(rows: seq<KeyRow>, s: Secrets, digest: Key -> string) returns (status: Status)
    ensures status == StatusOf(Contents(rows), s, digest)
  {
    ghost var all := Contents(rows);
    ContentsAt(rows);
    OpenedByAtMost(all, s.current);
    if s.current == None {
      return Status(|rows|, 0, 0, "");
    }
    var reEncrypted, pending := 0, 0;
    var i := 0;
    while i < |rows|
      invariant 0 <= i <= |rows|
      invariant reEncrypted == OpenedBy(all[..i], s.current) && reEncrypted + pending == i
    {
      assert all[..i+1][..i] == all[..i];
      if Decrypt(rows[i].keyEncrypted, s.current.value).Some? {
        reEncrypted := reEncrypted + 1;
      } else {
        pending := pending + 1;
      }
      i := i + 1;
    }
    assert all[..i] == all;
    var hash := digest(s.current.value);
    status := Status(|rows|, reEncrypted, pending, hash[..Min(8, |hash|)]);
  }

  lemma DifferencesStep(xs: seq<Stored>, ys: seq<Stored>, i: nat)
    requires |xs| == |ys| && i < |xs|
    ensures Differences(xs[..i+1], ys[..i+1]) == Differences(xs[..i], ys[..i]) + if xs[i] != ys[i] then 1 else 0
  {
    assert xs[..i+1][..i] == xs[..i] && ys[..i+1][..i] == ys[..i];
  }

  lemma NothingToDo(rows: seq<Stored>, s: Secrets, nonces: nat -> int)
    requires s.current == None || s.previous == None
    ensures RenewAll(rows, s, nonces) == rows && Differences(rows, RenewAll(rows, s, nonces)) == 0
  {
  }

  // ----- One re-encryption -----

  /** Re-encryption leaves what every row reads as unchanged. */
  lemma ReEncryptionKeepsReadings(rows: seq<Stored>, s: Secrets, nonces: nat -> int, i: nat)
    requires i < |rows|
    ensures Read(RenewAll(rows, s, nonces)[i], s) == Read(rows[i], s)
  {
  }

  /**
   With both keys set, a row is readable under the current key alone afterwards exactly when the current or the
   previous key opened it before, and with the same plaintext; any other row is left as it was.
   */
  lemma CurrentKeyAloneSuffices(rows: seq<Stored>, s: Secrets, nonces: nat -> int, i: nat)
    requires i < |rows| && s.current.Some? && s.previous.Some?
    ensures var after := RenewAll(rows, s, nonces)[i];
            && (Opens(after, s.current).Some? <==> Opens(rows[i], s.current).Some? || Opens(rows[i], s.previous).Some?)
            && (Opens(rows[i], s.current).Some? ==> Opens(after, s.current) == Opens(rows[i], s.current))
            && (Opens(rows[i], s.current) == None && Opens(rows[i], s.previous).Some? ==>
                  Opens(after, s.current) == Opens(rows[i], s.previous))
            && (Opens(after, s.current) == None ==> after == rows[i])
  {
  }

  /** A second call changes nothing and counts nothing, whatever nonces it would use. */
  lemma SecondCallCountsNothing(rows: seq<Stored>, s: Secrets, nonces: nat -> int, again: nat -> int)
    ensures var once := RenewAll(rows, s, nonces);
            RenewAll(once, s, again) == once && Differences(once, RenewAll(once, s, again)) == 0
  {
  }

  /** How many rows neither key opens. */
  function OpenedByNeither(rows: seq<Stored>, s: Secrets): nat {
    if rows == [] then 0 else
      var n := |rows| - 1;
      OpenedByNeither(rows[..n], s) +
      if Opens(rows[n], s.current) == None && Opens(rows[n], s.previous) == None then 1 else 0
  }

  /**
   The count returned is exactly the drop in pending rows, and what stays pending are the rows neither key opens,
   among them every row stored as plain text.
   */
  lemma {:induction false} CountIsDropInPending(rows: seq<Stored>, s: Secrets, nonces: nat -> int, digest: Key -> string)
    requires s.current.Some? && s.previous.Some?
    ensures var after := RenewAll(rows, s, nonces);
            && StatusOf(rows, s, digest).pending == StatusOf(after, s, digest).pending + Differences(rows, after)
            && StatusOf(after, s, digest).pending == OpenedByNeither(rows, s)
  {
    var after := RenewAll(rows, s, nonces);
    OpenedByAtMost(rows, s.current);
    OpenedByAtMost(after, s.current);
    if rows != [] {
      var n := |rows| - 1;
      CountIsDropInPending(rows[..n], s, nonces, digest);
      assert after[..n] == RenewAll(rows[..n], s, nonces);
      OpenedByAtMost(rows[..n], s.current);
      OpenedByAtMost(after[..n], s.current);
    }
  }

  /** A completed rotation leaves nothing pending if and only if one of the two keys opened every row. */
  lemma NothingPendingExactly(rows: seq<Stored>, s: Secrets, nonces: nat -> int, digest: Key -> string)
    requires s.current.Some? && s.previous.Some?
    ensures StatusOf(RenewAll(rows, s, nonces), s, digest).pending == 0 <==>
            forall i :: 0 <= i < |rows| ==> Opens(rows[i], s.current).Some? || Opens(rows[i], s.previous).Some?
  {
    CountIsDropInPending(rows, s, nonces, digest);
    NeitherIsNone(rows, s);
  }

  lemma {:induction false} NeitherIsNone(rows: seq<Stored>, s: Secrets)
    ensures OpenedByNeither(rows, s) == 0 <==>
            forall i :: 0 <= i < |rows| ==> Opens(rows[i], s.current).Some? || Opens(rows[i], s.previous).Some?
  {
    if rows != [] {
      var n := |rows| - 1;
      NeitherIsNone(rows[..n], s);
      assert forall i :: 0 <= i < n ==> rows[..n][i] == rows[i];
    }
  }

  /** The positions of the rows that the key opens. */
  function OpenedAt(rows: seq<Stored>, key: Option<Key>): set<int> {
    set i | 0 <= i < |rows| && Opens(rows[i], key).Some?
  }

  lemma OpenedAtStep(rows: seq<Stored>, key: Option<Key>)
    requires rows != []
    ensures var n := |rows| - 1;
            && OpenedAt(rows, key) == OpenedAt(rows[..n], key) + (if Opens(rows[n], key).Some? then {n} else {})
            && n !in OpenedAt(rows[..n], key)
  {
    hide Opens;
  }

  lemma {:induction false} OpenedByIsCount(rows: seq<Stored>, key: Option<Key>)
    ensures OpenedBy(rows, key) == |OpenedAt(rows, key)|
  {
    hide Opens, OpenedAt;
    if rows == [] {
      NoneOpened(key);
    } else {
      OpenedByIsCount(rows[..|rows|-1], key);
      OpenedAtStep(rows, key);
    }
  }

  lemma NoneOpened(key: Option<Key>)
    ensures OpenedAt([], key) == {}
  {
  }

  /**
   What the status reports: all rows, those the current key opens, the rest, and the head of the current key's digest;
   nothing but the total without a key.
   */
  lemma StatusExactly(rows: seq<Stored>, s: Secrets, digest: Key -> string)
    ensures var st := StatusOf(rows, s, digest);
            && st.total == |rows|
            && (s.current == None ==> st.reEncrypted == 0 && st.pending == 0 && st.keyHash == "")
            && (s.current.Some? ==>
                  && st.reEncrypted == |OpenedAt(rows, s.current)|
                  && st.pending == |rows| - st.reEncrypted
                  && |st.keyHash| == Min(8, |digest(s.current.value)|) && st.keyHash <= digest(s.current.value))
  {
    OpenedByIsCount(rows, s.current);
  }

  // ----- Chains of rotations -----

  datatype Op =
    | AddKey(text: string, nonce: int)
    | RemoveRow(index: nat)
    | Rotate(key: Key, nonces: nat -> int)

  /** The table, the secrets, and the plaintexts that were added and not removed. */
  datatype Vault = Vault(rows: seq<Stored>, secrets: Secrets, texts: seq<string>)

  function Without<T>(xs: seq<T>, i: nat): seq<T> {
    if i < |xs| then xs[..i] + xs[i+1..] else xs
  }

  /** A rotation makes the current key the previous one, and is followed by re-encryption. */
  function Do(v: Vault, op: Op): Vault {
    match op
    case AddKey(text, nonce) => v.(rows := v.rows + [StoreKey(text, v.secrets, nonce)], texts := v.texts + [text])
    case RemoveRow(i) => v.(rows := Without(v.rows, i), texts := Without(v.texts, i))
    case Rotate(key, nonces) =>
      var s := Secrets(Some(key), v.secrets.current);
      v.(rows := RenewAll(v.rows, s, nonces), secrets := s)
  }

  function DoAll(start: Option<Key>, ops: seq<Op>): Vault {
    if ops == [] then Vault([], Secrets(start, None), []) else Do(DoAll(start, ops[..|ops|-1]), ops[|ops|-1])
  }

  /** A row holds this text: opened by the current key alone, or stored as plain text. */
  predicate Holds(c: Stored, s: Secrets, text: string) {
    Opens(c, s.current) == Some(text) || c == Raw(text)
  }

  ghost predicate AllHeld(v: Vault) {
    && |v.rows| == |v.texts|
    && forall i :: 0 <= i < |v.rows| ==> Holds(v.rows[i], v.secrets, v.texts[i])
  }

  lemma DoKeepsAll(v: Vault, op: Op)
    requires AllHeld(v)
    ensures AllHeld(Do(v, op))
  {
  }

  lemma {:induction false} RunKeepsAll(start: Option<Key>, ops: seq<Op>)
    ensures AllHeld(DoAll(start, ops))
  {
    if ops != [] {
      RunKeepsAll(start, ops[..|ops|-1]);
      DoKeepsAll(DoAll(start, ops[..|ops|-1]), ops[|ops|-1]);
    }
  }

  /**
   No plaintext is lost: over any run of additions, removals and rotations, each rotation followed by re-encryption,
   the table reads as exactly the texts added and not removed, in order, and does so without the previous key.
   */
  lemma NoPlaintextIsLost(start: Option<Key>, ops: seq<Op>, i: nat)
    requires i < |DoAll(start, ops).rows|
    ensures var v := DoAll(start, ops);
            && |v.rows| == |v.texts|
            && Read(v.rows[i], v.secrets) == Plain(v.texts[i])
            && Read(v.rows[i], Secrets(v.secrets.current, None)) == Plain(v.texts[i])
  {
    RunKeepsAll(start, ops);
    assert Holds(DoAll(start, ops).rows[i], DoAll(start, ops).secrets, DoAll(start, ops).texts[i]);
  }

  /** Started with a key, every row is always sealed with the current one. */
  lemma {:induction false} AllSealedUnderCurrent(key: Key, ops: seq<Op>)
    ensures var v := DoAll(Some(key), ops);
            && v.secrets.current.Some? && |v.rows| == |v.texts|
            && forall i :: 0 <= i < |v.rows| ==> Opens(v.rows[i], v.secrets.current) == Some(v.texts[i])
  {
    if ops != [] {
      AllSealedUnderCurrent(key, ops[..|ops|-1]);
    }
  }

  /**
   Re-encryption between rotations is what saves the plaintexts: a sealed row reads as plain text exactly while a current
   key is set and the row's key is that or the previous one, so two rotations in a row lose it.  A row stored as plain
   text always reads as that.
   */
  lemma SealedReadsExactly(c: Stored, s: Secrets)
    ensures c.Sealed? ==>
              && (Read(c, s) == Plain(c.text) <==>
                  s.current.Some? && (s.current == Some(c.key) || s.previous == Some(c.key)))
              && (Read(c, s) != Plain(c.text) <==> Read(c, s) == Unopened(c))
    ensures c.Raw? ==> Read(c, s) == Plain(c.text)
  {
  }
}
