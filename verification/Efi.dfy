/**
 The firmware variables behind Secure Boot provisioning (internal/sb/sb.go), over an abstract variable
 store: reads and writes can fail, and a successful write of PK leaves setup mode, as section 32.3 of the
 UEFI Specification 2.11 describes.
 */
module Efi {
  import opened Base
  import opened Bits

  datatype Var = SetupMode | PK | KEK | Db | Dbx | OsIndications

  type Store = map<Var, seq<Byte>>

  /** The authenticated variables in the order in which they are provisioned. */
  const ORDER: seq<Var> := [PK, KEK, Db, Dbx]

  /** How the firmware answers the calls of one request. */
  datatype Answers = Answers(setupModeReadable: bool, accepted: set<Var>,
                             indicationsReadable: bool, indicationsWritable: bool)

  /** The variables after an authenticated write that the firmware accepted. */
  function Enrolled(store: Store, v: Var, data: seq<Byte>): Store {
    if v == PK then store[PK := data][SetupMode := [0]] else store[v := data]
  }

  function Read(store: Store, v: Var, readable: bool): Option<seq<Byte>> {
    if readable && v in store then Some(store[v]) else None
  }

  /** The setup mode, unless it cannot be read or is neither of the two values. */
  function SetupModeOf(store: Store, readable: bool): Option<bool> {
    match Read(store, SetupMode, readable)
    case Some(b) => if |b| == 1 && b[0] <= 1 then Some(b[0] == 1) else None
    case None => None
  }

  // ----- OsIndications -----

  /** binary.LittleEndian.Uint64 */
  function LittleEndian(b: seq<Byte>): nat {
    if b == [] then 0 else b[0] + 256 * LittleEndian(b[1..])
  }

  /** binary.LittleEndian.PutUint64, for any width */
  function PutLittleEndian(n: nat, k: nat): (b: seq<Byte>)
    ensures |b| == k
  {
    if k == 0 then [] else [n % 256] + PutLittleEndian(n / 256, k - 1)
  }

  const BOOT_TO_FIRMWARE_UI: nat := 1

  datatype Indications = Unexpected | AlreadyRequested | Update(data: seq<Byte>)

  /** What is to be written, given what was read; an unreadable variable counts as eight zero bytes. */
  function NewIndications(read: Option<seq<Byte>>): Indications {
    var b := if read == None then Copied(8, []) else read.value;
    if |b| != 8 then Unexpected
    else if And(LittleEndian(b), BOOT_TO_FIRMWARE_UI) != 0 then AlreadyRequested
    else Update(PutLittleEndian(Or(LittleEndian(b), BOOT_TO_FIRMWARE_UI), 8))
  }

  lemma {:induction false} PutOfLittleEndian(b: seq<Byte>)
    ensures PutLittleEndian(LittleEndian(b), |b|) == b
  {
    if b != [] {
      var n := LittleEndian(b);
      assert n == b[0] + 256 * LittleEndian(b[1..]);
      assert PutLittleEndian(n, |b|) == [n % 256] + PutLittleEndian(n / 256, |b| - 1);
      hide LittleEndian, PutLittleEndian;
      assert n % 256 == b[0] && n / 256 == LittleEndian(b[1..]);
      PutOfLittleEndian(b[1..]);
    }
  }

  lemma LowBit(n: nat)
    ensures And(n, 1) == n % 2
    ensures Or(n, 1) == n - n % 2 + 1
  {
    OrZero(n / 2);
    AndZero(n / 2);
  }

  /** Only the lowest bit of the first byte changes, and a second request finds it set. */
  lemma OnlyTheLowestBitChanges(b: seq<Byte>)
    requires |b| == 8
    ensures NewIndications(Some(b)) == if b[0] % 2 == 1 then AlreadyRequested else Update(b[0 := b[0] + 1])
    ensures b[0] % 2 == 0 ==> NewIndications(Some(b[0 := b[0] + 1])) == AlreadyRequested
  {
    hide And, Or, LittleEndian, PutLittleEndian;
    SetLowestBit(b);
    if b[0] % 2 == 0 {
      SetLowestBit(b[0 := b[0] + 1]);
    }
  }

  lemma SetLowestBit(b: seq<Byte>)
    requires |b| == 8
    ensures And(LittleEndian(b), 1) == b[0] % 2
    ensures b[0] % 2 == 0 ==> PutLittleEndian(Or(LittleEndian(b), 1), 8) == b[0 := b[0] + 1]
  {
    var n := LittleEndian(b);
    LowBit(n);
    hide And, Or;
    assert n == b[0] + 256 * LittleEndian(b[1..]);
    assert n % 2 == b[0] % 2;
    if b[0] % 2 == 0 {
      var c := b[0 := b[0] + 1];
      assert LittleEndian(c) == n + 1 by {
        assert c[1..] == b[1..];
      }
      hide LittleEndian, PutLittleEndian;
      PutOfLittleEndian(c);
    }
  }

  // ----- The operations -----

  /** The provisioning blobs of one request; dbx may be empty. */
  datatype Blobs = Blobs(pk: seq<Byte>, kek: seq<Byte>, db: seq<Byte>, dbx: seq<Byte>) {
    function Data(k: nat): seq<Byte>
      requires k < 4
    {
      [pk, kek, db, dbx][k]
    }

    /** How many variables the request is for. */
    function Count(): nat {
      if dbx == [] then 3 else 4
    }
  }

  /** The store after trying the variables from the k-th on, stopping at the first refusal. */
  function Provisioned(store: Store, blobs: Blobs, accepted: set<Var>, k: nat): (r: (Store, bool))
    requires k <= blobs.Count()
    decreases 4 - k
  {
    if k == blobs.Count() then (store, true)
    else if ORDER[k] !in accepted then (store, false)
    else Provisioned(Enrolled(store, ORDER[k], blobs.Data(k)), blobs, accepted, k + 1)
  }

  predicate SameAt(s: Store, t: Store, v: Var) {
    (v in s <==> v in t) && (v in s ==> s[v] == t[v])
  }

  /** Of the ordered variables, exactly those from k up to n now hold the request's blobs. */
  predicate WroteRange(before: Store, after: Store, blobs: Blobs, k: nat, n: nat) {
    forall i :: 0 <= i < 4 ==>
                  if k <= i < n then ORDER[i] in after && after[ORDER[i]] == blobs.Data(i)
                  else SameAt(before, after, ORDER[i])
  }

  /** Variables are written in order up to the first refusal; success means that all of the request's were. */
  lemma {:induction false} ProvisionedIsPrefix(store: Store, blobs: Blobs, accepted: set<Var>, k: nat) returns (n: nat)
    requires k <= blobs.Count()
    ensures k <= n <= blobs.Count()
    ensures forall i :: k <= i < n ==> ORDER[i] in accepted
    ensures n < blobs.Count() ==> ORDER[n] !in accepted
    ensures Provisioned(store, blobs, accepted, k).1 <==> n == blobs.Count()
    ensures WroteRange(store, Provisioned(store, blobs, accepted, k).0, blobs, k, n)
    decreases 4 - k
  {
    if k == blobs.Count() || ORDER[k] !in accepted {
      n := k;
    } else {
      var next := Enrolled(store, ORDER[k], blobs.Data(k));
      assert WroteRange(store, next, blobs, k, k + 1);
      n := ProvisionedIsPrefix(next, blobs, accepted, k + 1);
    }
  }

  /**
   Which blob goes where, and when: provisioning succeeds exactly when PK, KEK, db and, if there is one, dbx are
   accepted, and then each of these variables holds its own blob; PK comes first, and nothing is written without it.
   */
  lemma ProvisionedExactly(store: Store, blobs: Blobs, accepted: set<Var>)
    ensures var (after, ok) := Provisioned(store, blobs, accepted, 0);
            && (ok <==> PK in accepted && KEK in accepted && Db in accepted && (blobs.dbx != [] ==> Dbx in accepted))
            && (ok ==> && PK in after && after[PK] == blobs.pk && KEK in after && after[KEK] == blobs.kek
                       && Db in after && after[Db] == blobs.db
                       && (blobs.dbx != [] ==> Dbx in after && after[Dbx] == blobs.dbx)
                       && SetupMode in after && after[SetupMode] == [0])
            && (PK !in accepted ==> after == store)
            && (PK in accepted ==> PK in after && after[PK] == blobs.pk)
            && (PK in accepted && KEK in accepted ==> KEK in after && after[KEK] == blobs.kek)
            && (PK in accepted && KEK !in accepted ==> after == store[PK := blobs.pk][SetupMode := [0]])
            && (blobs.dbx == [] ==> SameAt(store, after, Dbx))
  {
    assert ORDER[0] == PK && ORDER[1] == KEK && ORDER[2] == Db && ORDER[3] == Dbx;
    Unrolled(store, blobs, accepted);
  }

  lemma Unrolled(store: Store, blobs: Blobs, accepted: set<Var>)
    ensures var s1 := Enrolled(store, PK, blobs.pk);
            var s2 := Enrolled(s1, KEK, blobs.kek);
            var s3 := Enrolled(s2, Db, blobs.db);
            Provisioned(store, blobs, accepted, 0)
            == if PK !in accepted then (store, false)
               else if KEK !in accepted then (s1, false)
               else if Db !in accepted then (s2, false)
               else if blobs.dbx == [] then (s3, true)
               else if Dbx !in accepted then (s3, false)
               else (Enrolled(s3, Dbx, blobs.dbx), true)
  {
    hide Enrolled;
    var s1 := Enrolled(store, PK, blobs.pk);
    var s2 := Enrolled(s1, KEK, blobs.kek);
    var s3 := Enrolled(s2, Db, blobs.db);
    assert ORDER[0] == PK && ORDER[1] == KEK && ORDER[2] == Db && ORDER[3] == Dbx;
    assert blobs.Data(0) == blobs.pk && blobs.Data(1) == blobs.kek && blobs.Data(2) == blobs.db && blobs.Data(3) == blobs.dbx;
    assert Provisioned(s3, blobs, accepted, 3)
           == if blobs.dbx == [] then (s3, true)
              else if Dbx !in accepted then (s3, false)
              else (Enrolled(s3, Dbx, blobs.dbx), true);
  }

  /** The store after asking for a reboot into the firmware menu. */
  function RebootRequested(store: Store, answers: Answers): Store {
    match NewIndications(Read(store, OsIndications, answers.indicationsReadable))
    case Update(data) => if answers.indicationsWritable then store[OsIndications := data] else store
    case _ => store
  }

  /** Whether asking for the reboot succeeds; it also does when it was asked for before. */
  predicate RebootGranted(store: Store, answers: Answers) {
    match NewIndications(Read(store, OsIndications, answers.indicationsReadable))
    case Unexpected => false
    case AlreadyRequested => true
    case Update(_) => answers.indicationsWritable
  }

  /** Eight bytes of indications with the lowest bit set. */
  predicate IndicatesReboot(store: Store) {
    OsIndications in store && |store[OsIndications]| == 8 && store[OsIndications][0] % 2 == 1
  }

  /**
   A readable request sets the lowest bit of eight bytes and nothing else, succeeds exactly when that bit is
   then set, and changes nothing when it is repeated.
   */
  lemma RebootIsRequestedOnce(store: Store, answers: Answers)
    requires answers.indicationsReadable
    ensures var b := if OsIndications in store then store[OsIndications] else Copied(8, []);
            RebootRequested(store, answers)
            == if |b| == 8 && b[0] % 2 == 0 && answers.indicationsWritable then store[OsIndications := b[0 := b[0] + 1]]
               else store
    ensures RebootGranted(store, answers) <==> IndicatesReboot(RebootRequested(store, answers))
    ensures RebootRequested(RebootRequested(store, answers), answers) == RebootRequested(store, answers)
  {
    hide And, Or, LittleEndian, PutLittleEndian;
    var b := if OsIndications in store then store[OsIndications] else Copied(8, []);
    assert NewIndications(Read(store, OsIndications, true)) == NewIndications(Some(b));
    if |b| == 8 {
      OnlyTheLowestBitChanges(b);
      hide NewIndications;
    }
  }

  class Firmware {
    var store: Store

    constructor (store: Store)
      ensures this.store == store
    {
      this.store := store;
    }

    /** The outcome is None where the source returns an error. */
    method IsSetupMode(answers: Answers) returns (r: Option<bool>)
      ensures r == SetupModeOf(store, answers.setupModeReadable)
      ensures r == Some(true) <==> answers.setupModeReadable && SetupMode in store && store[SetupMode] == [1]
      ensures r == Some(false) <==> answers.setupModeReadable && SetupMode in store && store[SetupMode] == [0]
    {
      var b := Read(store, SetupMode, answers.setupModeReadable);
      if b == None {
        return None;
      }
      if |b.value| != 1 {
        return None;
      }
      if b.value[0] != 0 && b.value[0] != 1 {
        return None;
      }
      r := Some(b.value[0] == 1);
    }

    method AuthenticatedWrite(v: Var, data: seq<Byte>, answers: Answers) returns (ok: bool)
      modifies this
      ensures ok == (v in answers.accepted)
      ensures store == if ok then Enrolled(old(store), v, data) else old(store)
    {
      ok := v in answers.accepted;
      if ok {
        store := Enrolled(store, v, data);
      }
    }

    method Provision(blobs: Blobs, answers: Answers) returns (ok: bool)
      modifies this
      ensures (store, ok) == Provisioned(old(store), blobs, answers.accepted, 0)
      ensures ok <==> && PK in answers.accepted && KEK in answers.accepted && Db in answers.accepted
                      && (blobs.dbx != [] ==> Dbx in answers.accepted)
      ensures ok ==> && PK in store && store[PK] == blobs.pk && KEK in store && store[KEK] == blobs.kek
                     && Db in store && store[Db] == blobs.db
                     && (blobs.dbx != [] ==> Dbx in store && store[Dbx] == blobs.dbx)
    {
      ProvisionedExactly(store, blobs, answers.accepted);
      Unrolled(store, blobs, answers.accepted);
      hide Provisioned;
      ok := AuthenticatedWrite(PK, blobs.pk, answers);
      if !ok {
        return;
      }
      ok := AuthenticatedWrite(KEK, blobs.kek, answers);
      if !ok {
        return;
      }
      ok := AuthenticatedWrite(Db, blobs.db, answers);
      if !ok {
        return;
      }
      if |blobs.dbx| != 0 {
        ok := AuthenticatedWrite(Dbx, blobs.dbx, answers);
      }
    }

    method RequestRebootIntoUEFIMenu(answers: Answers) returns (ok: bool)
      modifies this
      ensures store == RebootRequested(old(store), answers)
      ensures ok == RebootGranted(old(store), answers)
    {
      var b := Read(store, OsIndications, answers.indicationsReadable);
      var bytes := if b == None then Copied(8, []) else b.value;
      if |bytes| != 8 {
        return false;
      }
      var osIndications := LittleEndian(bytes);
      if And(osIndications, BOOT_TO_FIRMWARE_UI) != 0 {
        return true;
      }
      osIndications := Or(osIndications, BOOT_TO_FIRMWARE_UI);
      var data := PutLittleEndian(osIndications, 8);
      if answers.indicationsWritable {
        store := store[OsIndications := data];
      }
      ok := answers.indicationsWritable;
    }
  }
}
