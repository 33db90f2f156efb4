/**
 * `proxmox-autoinst-helper/src/main.rs`: the `info` subcommand, which
 * collects the udev properties of the NICs and disks asked for.
 *
 * Reading `/sys/block`, `/sys/class/net` and udev is not modelled: the
 * outcomes of `get_nics` and `get_disks` are parameters. The helper's
 * `match_filter` is the same as the assistant's and is modelled by
 * `Assistant.ParseFilterArgs` and `Assistant.MatchFilter`.
 */
module AutoinstHelper {
  import opened Wrappers
  import opened Assistant

  /** Device name to udev property map, as a `BTreeMap`. */
  type UdevMap = map<string, map<string, string>>

  /** `Devs`: the two optional sections of the JSON output. */
  datatype Devs = Devs(disks: Option<UdevMap>, nics: Option<UdevMap>)

  datatype InfoError = NicDataError(nicCause: string) | DiskDataError(diskCause: string)

  predicate WantsNics(device: AllDeviceTypes) { device.Network? || device.All? }

  predicate WantsDisks(device: AllDeviceTypes) { device.Disk? || device.All? }

  /**
   * `info`: the NICs are read first for `Network` and `All`, the disks for
   * `Disk` and `All`; the first read that fails is the error.
   */
  method Info(device: AllDeviceTypes, nics: Result<UdevMap, string>, disks: Result<UdevMap, string>)
    returns (r: Result<Devs, InfoError>)
    ensures WantsNics(device) && nics.Err? <==> r.Err? && r.error.NicDataError?
    ensures r.Err? && r.error.NicDataError? ==> r.error.nicCause == nics.error
    ensures r.Err? && r.error.DiskDataError? <==> !(WantsNics(device) && nics.Err?) && WantsDisks(device) && disks.Err?
    ensures r.Err? && r.error.DiskDataError? ==> r.error.diskCause == disks.error
    ensures r.Ok? ==> r.value.nics == (if WantsNics(device) then Some(nics.value) else None)
    ensures r.Ok? ==> r.value.disks == (if WantsDisks(device) then Some(disks.value) else None)
  {
    var devs := Devs(None, None);
    if device.Network? || device.All? {
      match nics {
        case Ok(res) => devs := devs.(nics := Some(res));
        case Err(err) => return Err(NicDataError(err));
      }
    }
    if device.Disk? || device.All? {
      match disks {
        case Ok(res) => devs := devs.(disks := Some(res));
        case Err(err) => return Err(DiskDataError(err));
      }
    }
    return Ok(devs);
  }

  /** `All` fills both sections, `Network` only the NICs and `Disk` only the disks. */
  lemma InfoSections(device: AllDeviceTypes)
    ensures device.All? ==> WantsNics(device) && WantsDisks(device)
    ensures device.Network? ==> WantsNics(device) && !WantsDisks(device)
    ensures device.Disk? ==> !WantsNics(device) && WantsDisks(device)
  {
  }
}
