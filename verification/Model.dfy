/** The durable records of the publication protocol: what a commit, a mirror
    object, a transaction and the completion ledger are. */
module Model {

  datatype Option<+T> = None | Some(value: T)

  type Name = string  // a mirror name
  type Id = nat       // a random object ID

  /** A pack part without its location: every field of a pack row that a repair must keep. */
  datatype Slot = Slot(pack: string, part: nat, hash: string)

  /** A metadata state: the pack catalog (each slot with its object ID) and everything else. */
  datatype State = State(packs: map<Slot, Id>, other: nat)

  /** A commit ID determines the whole ancestry, so a commit is its own history. */
  datatype Commit = Commit(parent: Option<Commit>, state: State, stamp: nat)

  datatype MetaPart = MetaPart(hash: string, id: Id)

  /** A metadata manifest; its hash is taken to be injective, so the content stands for it. */
  datatype Manifest = Manifest(sequence: nat, base: Option<Commit>, tip: Commit, parts: seq<MetaPart>)

  /** The name of an immutable object on a mirror. */
  datatype Key =
    | DataKey(hash: string, id: Id)
    | PartKey(part: MetaPart)
    | ManifestKey(manifest: Manifest, id: Id)

  datatype Kind = Genesis | Ordinary | Repair

  datatype DataPart = DataPart(slot: Slot, id: Id)

  datatype Staged = Staged(manifest: Manifest, id: Id)

  datatype Progress = Progress(
    dataCursor: nat, metaCursor: nat, manifest: bool, dataComplete: bool, revisionComplete: bool)

  /** Captured packs; `complete` says that the cursor reached the end of the plan. */
  datatype Capture = Capture(parts: map<Slot, Id>, complete: bool, mirrors: set<Name>)

  datatype Txn = Txn(
    kind: Kind, incident: nat, base: Option<Commit>, capture: Option<Capture>,
    candidate: Option<State>, parts: seq<DataPart>,
    local: Option<Commit>, accepted: bool, metadata: Option<Staged>,
    attempted: bool, confirmed: bool, resetting: bool, mirrors: map<Name, Progress>)

  datatype Ledger = Ledger(
    mirrors: map<Name, Commit>, incident: nat, quarantined: set<Name>, forwardRepair: Option<Commit>)
  {
    predicate Eligible(m: Name, c: Option<Commit>) {
      c.Some? && m !in quarantined && m in mirrors && mirrors[m] == c.value
    }
  }

  const NO_PROGRESS := Progress(0, 0, false, false, false)
  const MAX_INCIDENT: nat := 0xFFFF_FFFF_FFFF_FFFF

  function NewTxn(kind: Kind, base: Option<Commit>): Txn {
    Txn(kind, 0, base, None, None, [], None, false, None, false, false, false, map[])
  }

  function P(t: Txn, m: Name): Progress {
    if m in t.mirrors then t.mirrors[m] else NO_PROGRESS
  }

  function SetP(t: Txn, m: Name, p: Progress): Txn {
    t.(mirrors := t.mirrors[m := p])
  }

  function PackKey(s: State, x: Slot): Key
    requires x in s.packs
  {
    DataKey(x.hash, s.packs[x])
  }

  function StagedKey(p: DataPart): Key {
    DataKey(p.slot.hash, p.id)
  }

  function RepresentationKey(s: Staged): Key {
    ManifestKey(s.manifest, s.id)
  }
}
