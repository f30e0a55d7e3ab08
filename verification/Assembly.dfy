/** `assemble` in `internal/volumeState.ts`: the volume a set of node specifications describes. */
module Assembly {
  import opened Basics
  import opened Forest
  import opened Volumes

  /** A node before it is assembled: directories name their parent, files and links list their names. */
  datatype Spec =
    | DirectorySpec(parent: Ino, name: Name, metadata: Metadata)
    | FileSpec(links: seq<Link>, data: bytes, metadata: Metadata)
    | SymlinkSpec(links: seq<Link>, target: bytes, metadata: Metadata)

  /** The names the spec `c` claims in the directory `d`. */
  function NamesIn(specs: map<Ino, Spec>, c: Ino, d: Ino): set<Name>
    requires c in specs
  {
    match specs[c]
    case DirectorySpec(parent, name, _) => if c != ROOT && parent == d then {name} else {}
    case FileSpec(links, _, _) => set l | l in links && l.parent == d :: l.name
    case SymlinkSpec(links, _, _) => set l | l in links && l.parent == d :: l.name
  }

  /** No directory holds a name twice; the caller has checked this. */
  ghost predicate NoNameTwice(specs: map<Ino, Spec>) {
    forall c, e, d, n :: c in specs && e in specs && n in NamesIn(specs, c, d) && n in NamesIn(specs, e, d) ==> c == e
  }

  function EntriesIn(specs: map<Ino, Spec>, d: Ino): (m: map<Name, Ino>)
    requires NoNameTwice(specs)
    ensures forall n :: n in m ==> m[n] in specs && n in NamesIn(specs, m[n], d)
    ensures forall c, n :: c in specs && n in NamesIn(specs, c, d) ==> n in m && m[n] == c
  {
    map c, n | c in specs && n in NamesIn(specs, c, d) :: n := c
  }

  function AssembleNode(specs: map<Ino, Spec>, c: Ino): Node
    requires NoNameTwice(specs) && c in specs
  {
    match specs[c]
    case DirectorySpec(parent, name, metadata) => Directory(parent, name, EntriesIn(specs, c), metadata)
    case FileSpec(links, data, metadata) => File(links, data, metadata)
    case SymlinkSpec(links, target, metadata) => Symlink(links, target, metadata)
  }

  function Assemble(specs: map<Ino, Spec>): (v: Volume)
    requires NoNameTwice(specs)
    ensures v.Keys == specs.Keys
  {
    map c | c in specs :: AssembleNode(specs, c)
  }

  /** One step of a lookup in the assembled volume follows a claimed name. */
  lemma AssembledStep(specs: map<Ino, Spec>, d: Ino, n: Name)
    requires NoNameTwice(specs) && d in specs && specs[d].DirectorySpec?
    ensures var v := Assemble(specs);
            && v[d].Directory?
            && (n in v[d].entries <==> exists c :: c in specs && n in NamesIn(specs, c, d))
            && (forall c :: c in specs && n in NamesIn(specs, c, d) ==> n in v[d].entries && v[d].entries[n] == c)
  {
    var v := Assemble(specs);
    if n in v[d].entries { assert n in NamesIn(specs, v[d].entries[n], d); }
  }
}
