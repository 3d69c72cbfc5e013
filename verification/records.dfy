/** The canonical surgery record that the list report is normalised into, and
    the six staffing roles it carries (services/excelProcessor.ts:173-199). */
module Records {
  import opened Wrappers

  /** `StaffRole`: primary surgeon, assistant surgeon, anaesthetist,
      anaesthesia technician, instrument nurse ("TDC") and helper ("GV"). */
  datatype Role = PtChinh | PtPhu | BsGM | KtvGM | Tdc | Gv

  /** The order in which the roles are visited, both by the conflict detector
      (services/excelProcessor.ts:381-386) and by `ROLE_GROUPS` (844-851). */
  const Roles: seq<Role> := [PtChinh, PtPhu, BsGM, KtvGM, Tdc, Gv]

  function RoleIndex(r: Role): (k: nat)
    ensures k < |Roles| && Roles[k] == r
  {
    match r
    case PtChinh => 0
    case PtPhu => 1
    case BsGM => 2
    case KtvGM => 3
    case Tdc => 4
    case Gv => 5
  }

  /** One normalised row of the list report. Timestamps are minutes on the
      clock's time line; `soLuong` is the billed quantity in hundredths. */
  datatype SurgeryRecord = SurgeryRecord(
    stt: string,
    patientId: string,
    patientName: string,
    gender: string,
    yob: string,
    bhyt: string,
    ngayCD: string,
    ngayBD: string,
    ngayKT: string,
    tenKT: string,
    loaiPT: string,
    loaiTT: string,
    soLuong: int,
    timeMinutes: int,
    ptChinh: string,
    ptPhu: string,
    bsGM: string,
    ktvGM: string,
    tdc: string,
    gv: string,
    machine: string,
    start: Option<int>,
    end: Option<int>,
    key: string)
  {
    /** The person named in `role` (empty when nobody is). */
    function Staff(role: Role): string {
      match role
      case PtChinh => ptChinh
      case PtPhu => ptPhu
      case BsGM => bsGM
      case KtvGM => ktvGM
      case Tdc => tdc
      case Gv => gv
    }

    /** Both timestamps parsed: the record has a time interval. */
    predicate Timed() {
      start.Some? && end.Some?
    }
  }
}
