// provider/contract.go: kinds, formats and what a descriptor accepts.
module Provider {

  datatype Kind = VirtualBox | Fusion | Workstation | OtherKind(name: string)

  datatype Format = OVA | OVF | ISO | VMX | VDI | VMDK

  datatype Descriptor = Descriptor(kind: Kind, hostArch: string, formats: seq<Format>)

  function Family(k: Kind): string {
    if k.Fusion? || k.Workstation? then "vmware" else "virtualbox"
  }

  /** The provider's name in the Vagrant registry; "" when it has none. */
  function VagrantProvider(k: Kind): string {
    match k
    case VirtualBox => "virtualbox"
    case Fusion => "vmware_desktop"
    case Workstation => "vmware_desktop"
    case OtherKind(_) => ""
  }

  predicate Accepts(d: Descriptor, f: Format) {
    f in d.formats
  }
}
