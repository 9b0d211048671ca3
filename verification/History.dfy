/** Internal keys, and the multi-version history they describe (db/dbformat.h, db/dbformat.cc).

    A user key is represented by its rank in the user comparator's total order: nothing in
    these modules uses more of a key than that order, and `Bytewise.RankIsOrderEmbedding`
    gives the rank for the default comparator. */
module History {

  type UserKey = real
  const MAX_SEQUENCE: nat := 0xFF_FFFF_FFFF_FFFF

  datatype Option<+T> = None | Some(value: T)

  datatype Kind = Deletion | Value
  datatype IKey = IKey(user: UserKey, sequence: nat, kind: Kind)
  datatype Entry = Entry(key: IKey, val: string)
  datatype Lookup = Found(val: string) | Missing

  /** The sequence number and the type packed into one 64-bit tag. */
  function Tag(k: IKey): nat {
    k.sequence * 256 + if k.kind.Value? then 1 else 0
  }

  /** `InternalKeyComparator::Compare(a, b) < 0`: user keys ascending, tags descending. */
  predicate Before(a: IKey, b: IKey) {
    a.user < b.user || (a.user == b.user && Tag(a) > Tag(b))
  }

  /** The key under which `Get` and `Seek` look for the newest entry of `u` visible at `s`. */
  function SeekKey(u: UserKey, s: nat): IKey {
    IKey(u, s, Value)
  }

  ghost predicate Sorted(entries: seq<Entry>) {
    forall i, j :: 0 <= i < j < |entries| ==> Before(entries[i].key, entries[j].key)
  }

  // ---------- what a set of entries means ----------

  predicate Visible(e: Entry, u: UserKey, s: nat) {
    e.key.user == u && e.key.sequence <= s
  }

  ghost predicate NoneVisible(S: set<Entry>, u: UserKey, s: nat) {
    forall e :: e in S ==> !Visible(e, u, s)
  }

  ghost predicate Newest(e: Entry, S: set<Entry>, u: UserKey, s: nat) {
    e in S && Visible(e, u, s) && forall x :: x in S && Visible(x, u, s) ==> x.key.sequence <= e.key.sequence
  }

  function Verdict(e: Entry): Lookup {
    if e.key.kind.Value? then Found(e.val) else Missing
  }

  /** The result the store owes a reader of `u` at sequence number `s`. */
  ghost function Read(S: set<Entry>, u: UserKey, s: nat): Lookup {
    if exists e :: Newest(e, S, u, s) then
      var e :| Newest(e, S, u, s);
      Verdict(e)
    else
      Missing
  }

  /** No two writes share a sequence number. */
  ghost predicate Distinct(S: set<Entry>) {
    forall a, b :: a in S && b in S && a.key.user == b.key.user && a.key.sequence == b.key.sequence ==> a == b
  }

  lemma ReadOfNewest(S: set<Entry>, u: UserKey, s: nat, e: Entry)
    requires Distinct(S) && Newest(e, S, u, s)
    ensures Read(S, u, s) == Verdict(e)
  {
  }

  lemma {:induction false} NewestExists(S: set<Entry>, u: UserKey, s: nat)
    requires !NoneVisible(S, u, s)
    ensures exists e :: Newest(e, S, u, s)
    decreases S
  {
    var e :| e in S && Visible(e, u, s);
    if NoneVisible(S - {e}, u, s) {
      assert Newest(e, S, u, s);
    } else {
      NewestExists(S - {e}, u, s);
      var m :| Newest(m, S - {e}, u, s);
      assert Newest(if m.key.sequence <= e.key.sequence then e else m, S, u, s);
    }
  }

  // ---------- batches ----------

  datatype Update = Update(user: UserKey, kind: Kind, val: string)

  /** `SetSequence` and `InsertInto`: the updates of a batch take consecutive sequence numbers. */
  function Numbered(batch: seq<Update>, first: nat): seq<Entry> {
    seq(|batch|, i requires 0 <= i < |batch| => Entry(IKey(batch[i].user, first + i, batch[i].kind), batch[i].val))
  }
}
