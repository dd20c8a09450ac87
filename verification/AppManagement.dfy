/** Installing one managed application: observe the device, decide, install, observe again. The device
    and the package tools are outside the program; faults say what they do to one call. */
module AppManagement {
  import opened Wrappers

  /** What the package manager reports about one installed package. */
  datatype Package = Package(reportedName: string, path: string, versionName: Option<string>, versionCode: Option<nat>,
                             enabled: bool, signer: Option<string>)

  datatype Level = Basic | Verified

  datatype VersionStatus = Uploaded | Inspecting | Ready | Invalid | Retired

  datatype Version = Version(id: nat, status: VersionStatus, level: Level, discoveredName: Option<string>,
                             basicApproved: bool, versionName: Option<string>, versionCode: Option<nat>,
                             signer: Option<string>, sha256: string)

  /** An application with every version of it in the database. */
  datatype App = App(packageName: string, versions: seq<Version>)

  datatype ApkBlob = ApkBlob(active: bool, sha256: string)

  /** What an install of the stored bytes puts on a device. */
  datatype Apk = Apk(packageName: string, package: Package)

  datatype Request = Request(app: App, desired: Version, blob: Option<ApkBlob>, apk: Apk, knownInstalled: bool,
                             knownName: Option<string>, knownCode: Option<nat>)

  datatype AdbFault = Cancelled | OtherFault

  datatype ViewFault = BlobGone | BlobUnsafe

  /** What goes wrong in one call. A failed install command may have been applied all the same. `strict`
      says that the device refuses a lower version code, as an install without `-d` asks it to; a device
      that lets one through anyway is not strict. */
  datatype Faults = Faults(firstLook: Option<AdbFault>, view: Option<ViewFault>, command: Option<AdbFault>,
                           applied: bool, secondLook: Option<AdbFault>, strict: bool)

  const NO_FAULTS := Faults(None, None, None, false, None, true)

  datatype AppError =
    | NotInstalled | PackageMismatch | BasicUpdateRequiresVerified | VersionMismatch | SignatureMismatch
    | InstallFailed | VerifyFailed | PackageDisabled | DowngradeBlocked | VersionNotReady | BlobMissing | BlobInvalid
    | OperationCancelled

  datatype Observation = Observation(packageName: string, versionName: Option<string>, versionCode: Option<nat>,
                                     signer: Option<string>, changed: bool, level: Level)

  // ----- checks -----

  const DATA_APP := "/data/app/"

  predicate StartsWith(s: string, prefix: string) {
    |prefix| <= |s| && s[..|prefix|] == prefix
  }

  function Cancellation(fault: AdbFault, other: AppError): AppError {
    if fault.Cancelled? then OperationCancelled else other
  }

  function Observe(packages: map<string, Package>, app: App, fault: Option<AdbFault>)
    : Result<Option<Package>, AppError>
  {
    if fault.Some? then Failure(Cancellation(fault.value, VerifyFailed))
    else if app.packageName !in packages then Success(None)
    else
      var p := packages[app.packageName];
      if p.reportedName != app.packageName || !StartsWith(p.path, DATA_APP) then Failure(PackageMismatch)
      else Success(Some(p))
  }

  predicate IsExact(p: Package, desired: Version) {
    p.versionCode == desired.versionCode && (desired.versionName.None? || p.versionName == desired.versionName)
  }

  predicate MatchesKnownBasic(p: Package, name: Option<string>, code: Option<nat>) {
    && (code.Some? ==> p.versionCode == code)
    && (name.Some? ==> p.versionName == name)
    && (code.Some? || name.Some?)
  }

  predicate SignerConflict(p: Package, desired: Version) {
    desired.level.Verified? && p.signer.Some? && desired.signer.Some? && p.signer != desired.signer
  }

  function ValidateEnabledAndSigner(p: Package, desired: Version): Option<AppError> {
    if !p.enabled then Some(PackageDisabled)
    else if SignerConflict(p, desired) then Some(SignatureMismatch)
    else None
  }

  /** The first ready or retired version with a given code. */
  function KnownVersion(versions: seq<Version>, code: nat): (r: Option<Version>)
    ensures r.Some? ==> r.value in versions && r.value.versionCode == Some(code)
                        && (r.value.status.Ready? || r.value.status.Retired?)
    ensures r.None? <==> forall v :: v in versions && v.versionCode == Some(code) ==>
                           !v.status.Ready? && !v.status.Retired?
  {
    if versions == [] then None
    else if versions[0].versionCode == Some(code) && (versions[0].status.Ready? || versions[0].status.Retired?)
    then Some(versions[0])
    else KnownVersion(versions[1..], code)
  }

  /** Python's truth of an optional text. */
  predicate Given(s: Option<string>) {
    s.Some? && s.value != ""
  }

  function ValidateUpdateCandidate(app: App, desired: Version, p: Package): Option<AppError> {
    if p.versionCode.None? || desired.versionCode.None? then Some(VersionMismatch)
    else if p.versionCode.value > desired.versionCode.value then Some(DowngradeBlocked)
    else if p.versionCode.value == desired.versionCode.value then Some(VersionMismatch)
    else
      match KnownVersion(app.versions, p.versionCode.value)
      case None => Some(VersionMismatch)
      case Some(known) =>
        if Given(desired.signer) && known.signer != desired.signer then Some(SignatureMismatch)
        else if Given(p.signer) && Given(desired.signer) && p.signer != desired.signer then Some(SignatureMismatch)
        else None
  }

  function ResolveVersion(app: App, desired: Version): Option<AppError> {
    if !desired.status.Ready? then Some(VersionNotReady)
    else
      var verified := desired.level.Verified? && desired.discoveredName == Some(app.packageName)
          && desired.versionCode.Some?;
      if !(verified || (desired.level.Basic? && desired.basicApproved)) then Some(VersionNotReady) else None
  }

  function ResolveApk(q: Request): Option<AppError> {
    match ResolveVersion(q.app, q.desired)
    case Some(e) => Some(e)
    case None =>
      if q.blob.None? || !q.blob.value.active then Some(BlobMissing)
      else if q.blob.value.sha256 != q.desired.sha256 then Some(BlobInvalid)
      else None
  }

  function Report(p: Package, desired: Version, changed: bool): Observation {
    Observation(p.reportedName, p.versionName, p.versionCode, p.signer, changed, desired.level)
  }

  // ----- one call, as a function of the device -----

  /** What the first observation leads to. */
  datatype Decision = Refuse(error: AppError) | Keep(package: Package) | Issue

  function Decide(packages: map<string, Package>, q: Request, fault: Option<AdbFault>): Decision {
    if ResolveApk(q).Some? then Refuse(ResolveApk(q).value)
    else
      match Observe(packages, q.app, fault)
      case Failure(e) => Refuse(e)
      case Success(None) => Issue
      case Success(Some(p)) =>
        if ValidateEnabledAndSigner(p, q.desired).Some? then Refuse(ValidateEnabledAndSigner(p, q.desired).value)
        else if IsExact(p, q.desired)
                || (q.desired.level.Basic? && q.knownInstalled && MatchesKnownBasic(p, q.knownName, q.knownCode))
        then Keep(p)
        else if q.desired.level.Basic? then Refuse(BasicUpdateRequiresVerified)
        else
          match ValidateUpdateCandidate(q.app, q.desired, p)
          case Some(e) => Refuse(e)
          case None => Issue
  }

  /** The second observation, which alone decides whether the install counts. */
  function Confirm(packages: map<string, Package>, q: Request, fault: Option<AdbFault>): Result<Observation, AppError> {
    match Observe(packages, q.app, fault)
    case Failure(e) => Failure(e)
    case Success(None) => Failure(PackageMismatch)
    case Success(Some(p)) =>
      if ValidateEnabledAndSigner(p, q.desired).Some? then Failure(ValidateEnabledAndSigner(p, q.desired).value)
      else if q.desired.level.Verified? && !IsExact(p, q.desired) then Failure(VerifyFailed)
      else Success(Report(p, q.desired, true))
  }

  /** Whether the bytes would take a known version code down. */
  predicate Lowers(packages: map<string, Package>, apk: Apk) {
    && apk.packageName in packages && packages[apk.packageName].versionCode.Some?
    && (apk.package.versionCode.None? || apk.package.versionCode.value < packages[apk.packageName].versionCode.value)
  }

  predicate Takes(packages: map<string, Package>, apk: Apk, f: Faults) {
    (f.command.None? || f.applied) && !(f.strict && Lowers(packages, apk))
  }

  /** The error of the install command: its own fault, or the device's refusal. */
  function CommandError(packages: map<string, Package>, apk: Apk, f: Faults): Option<AdbFault> {
    if f.command.Some? then f.command
    else if f.strict && Lowers(packages, apk) then Some(OtherFault)
    else None
  }

  function AfterCommand(packages: map<string, Package>, apk: Apk, f: Faults): map<string, Package> {
    if Takes(packages, apk, f) then packages[apk.packageName := apk.package] else packages
  }

  datatype Outcome = Outcome(packages: map<string, Package>, issued: bool, result: Result<Observation, AppError>)

  function InstallOutcome(packages: map<string, Package>, q: Request, f: Faults): Outcome {
    match Decide(packages, q, f.firstLook)
    case Refuse(e) => Outcome(packages, false, Failure(e))
    case Keep(p) => Outcome(packages, false, Success(Report(p, q.desired, false)))
    case Issue =>
      if f.view.Some? then
        Outcome(packages, false, Failure(if f.view.value.BlobGone? then BlobMissing else BlobInvalid))
      else
        var after := AfterCommand(packages, q.apk, f);
        match CommandError(packages, q.apk, f)
        case Some(error) => Outcome(after, true, Failure(Cancellation(error, InstallFailed)))
        case None => Outcome(after, true, Confirm(after, q, f.secondLook))
  }

  // ----- the calls -----

  class Device {
    var packages: map<string, Package>

    constructor ()
      ensures packages == map[]
    {
      packages := map[];
    }

    /** `adb install -r`. */
    method InstallPackage(apk: Apk, f: Faults) returns (r: Option<AdbFault>)
      modifies this
      ensures packages == AfterCommand(old(packages), apk, f)
      ensures r == CommandError(old(packages), apk, f)
    {
      if f.strict && apk.packageName in packages {
        var present := packages[apk.packageName].versionCode;
        if present.Some? && (apk.package.versionCode.None? || apk.package.versionCode.value < present.value) {
          return if f.command.Some? then f.command else Some(OtherFault);
        }
      }
      if f.command.None? || f.applied {
        packages := packages[apk.packageName := apk.package];
      }
      return f.command;
    }
  }

  class AndroidAppManagementService {
    const device: Device

    constructor (device: Device)
      ensures this.device == device
    {
      this.device := device;
    }

    method Install(q: Request, f: Faults) returns (r: Result<Observation, AppError>)
      modifies device
      ensures device.packages == InstallOutcome(old(device.packages), q, f).packages
      ensures r == InstallOutcome(old(device.packages), q, f).result
    {
      var refused := ResolveApk(q);
      if refused.Some? {
        return Failure(refused.value);
      }
      var looked := Observe(device.packages, q.app, f.firstLook);
      if looked.Failure? {
        return Failure(looked.error);
      }
      if looked.value.Some? {
        var observed := looked.value.value;
        var invalid := ValidateEnabledAndSigner(observed, q.desired);
        if invalid.Some? {
          return Failure(invalid.value);
        }
        if IsExact(observed, q.desired)
           || (q.desired.level.Basic? && q.knownInstalled && MatchesKnownBasic(observed, q.knownName, q.knownCode)) {
          return Success(Report(observed, q.desired, false));
        }
        if q.desired.level.Basic? {
          return Failure(BasicUpdateRequiresVerified);
        }
        var candidate := ValidateUpdateCandidate(q.app, q.desired, observed);
        if candidate.Some? {
          return Failure(candidate.value);
        }
      }
      if f.view.Some? {
        return Failure(if f.view.value.BlobGone? then BlobMissing else BlobInvalid);
      }
      var command := device.InstallPackage(q.apk, f);
      if command.Some? {
        return Failure(Cancellation(command.value, InstallFailed));
      }
      var final := Observe(device.packages, q.app, f.secondLook);
      if final.Failure? {
        return Failure(final.error);
      }
      if final.value.None? {
        return Failure(PackageMismatch);
      }
      var invalid := ValidateEnabledAndSigner(final.value.value, q.desired);
      if invalid.Some? {
        return Failure(invalid.value);
      }
      if q.desired.level.Verified? && !IsExact(final.value.value, q.desired) {
        return Failure(VerifyFailed);
      }
      return Success(Report(final.value.value, q.desired, true));
    }

    /** `verify`: the same checks without an install. */
    method Verify(app: App, desired: Version, fault: Option<AdbFault>) returns (r: Result<Observation, AppError>)
      ensures r == VerifyOutcome(device.packages, app, desired, fault)
    {
      var refused := ResolveVersion(app, desired);
      if refused.Some? {
        return Failure(refused.value);
      }
      var looked := Observe(device.packages, app, fault);
      if looked.Failure? {
        return Failure(looked.error);
      }
      if looked.value.None? {
        return Failure(NotInstalled);
      }
      var invalid := ValidateEnabledAndSigner(looked.value.value, desired);
      if invalid.Some? {
        return Failure(invalid.value);
      }
      if desired.level.Verified? && !IsExact(looked.value.value, desired) {
        return Failure(VersionMismatch);
      }
      return Success(Report(looked.value.value, desired, false));
    }
  }

  function VerifyOutcome(packages: map<string, Package>, app: App, desired: Version, fault: Option<AdbFault>)
    : Result<Observation, AppError>
  {
    if ResolveVersion(app, desired).Some? then Failure(ResolveVersion(app, desired).value)
    else
      match Observe(packages, app, fault)
      case Failure(e) => Failure(e)
      case Success(None) => Failure(NotInstalled)
      case Success(Some(p)) =>
        if ValidateEnabledAndSigner(p, desired).Some? then Failure(ValidateEnabledAndSigner(p, desired).value)
        else if desired.level.Verified? && !IsExact(p, desired) then Failure(VersionMismatch)
        else Success(Report(p, desired, false))
  }

  // ----- what a request is checked for -----

  /** A version can be installed if it is ready and either verified, with the application's own package name and
      a version code, or an approved basic one; its bytes must be there and the recorded ones. */
  lemma ResolveExact(q: Request)
    ensures var d := q.desired;
            var usable := d.status.Ready?
                          && ((d.level.Verified? && d.discoveredName == Some(q.app.packageName) && d.versionCode.Some?)
                              || (d.level.Basic? && d.basicApproved));
            && ResolveVersion(q.app, d) == (if usable then None else Some(VersionNotReady))
            && (ResolveApk(q) == Some(VersionNotReady) <==> !usable)
            && (ResolveApk(q) == Some(BlobMissing) <==> usable && (q.blob == None || !q.blob.value.active))
            && (ResolveApk(q) == Some(BlobInvalid) <==>
                  usable && q.blob.Some? && q.blob.value.active && q.blob.value.sha256 != d.sha256)
            && (ResolveApk(q) == None <==> usable && q.blob == Some(ApkBlob(true, d.sha256)))
  {
  }

  predicate Conflicts(a: Option<string>, b: Option<string>) {
    a.Some? && b.Some? && a.value != b.value
  }

  /** What the first look leads to when an acceptable request finds its package: each refusal, keeping the
      package, or an install, with its exact condition. */
  lemma DecideExact(packages: map<string, Package>, q: Request)
    requires ResolveApk(q).None? && q.app.packageName in packages
    ensures var p, v, d := packages[q.app.packageName], q.desired, Decide(packages, q, None);
            var foreign := p.reportedName != q.app.packageName || !("/data/app/" <= p.path);
            var conflict := v.level.Verified? && Conflicts(p.signer, v.signer);
            var exact := p.versionCode == v.versionCode && (v.versionName == None || p.versionName == v.versionName);
            var remembered := v.level.Basic? && q.knownInstalled && (q.knownCode.Some? || q.knownName.Some?)
                              && (q.knownCode == None || p.versionCode == q.knownCode)
                              && (q.knownName == None || p.versionName == q.knownName);
            && (foreign ==> d == Refuse(PackageMismatch))
            && (!foreign && !p.enabled ==> d == Refuse(PackageDisabled))
            && (!foreign && p.enabled && conflict ==> d == Refuse(SignatureMismatch))
            && (!foreign && p.enabled && !conflict && (exact || remembered) ==> d == Keep(p))
            && (!foreign && p.enabled && !conflict && !exact && !remembered && v.level.Basic? ==>
                  d == Refuse(BasicUpdateRequiresVerified))
            && (!foreign && p.enabled && !conflict && !exact && v.level.Verified? ==>
                  d == match ValidateUpdateCandidate(q.app, v, p) case None => Issue case Some(e) => Refuse(e))
  {
    hide KnownVersion, ResolveApk;
  }

  /** Why a verified version does not replace an installed one: the installed code is unknown, higher, the same
      under another name, or not one of the application's own versions, or a signer differs. */
  lemma UpdateExact(app: App, desired: Version, p: Package)
    requires desired.versionCode.Some?
    ensures var r := ValidateUpdateCandidate(app, desired, p);
            var lower := p.versionCode.Some? && p.versionCode.value < desired.versionCode.value;
            && (r == Some(DowngradeBlocked) <==>
                  p.versionCode.Some? && p.versionCode.value > desired.versionCode.value)
            && (r == Some(VersionMismatch) <==>
                  || p.versionCode == None || p.versionCode == desired.versionCode
                  || (lower && KnownVersion(app.versions, p.versionCode.value) == None))
            && (r == None <==>
                  && lower && KnownVersion(app.versions, p.versionCode.value).Some?
                  && (desired.signer.Some? && desired.signer.value != "" ==>
                        && KnownVersion(app.versions, p.versionCode.value).value.signer == desired.signer
                        && (p.signer.Some? && p.signer.value != "" ==> p.signer == desired.signer)))
            && r in [None, Some(DowngradeBlocked), Some(VersionMismatch), Some(SignatureMismatch)]
  {
    hide KnownVersion;
  }

  /** What a successful answer reports. */
  lemma ReportExact(packages: map<string, Package>, q: Request, f: Faults)
    ensures var o := InstallOutcome(packages, q, f);
            o.result.Success? ==>
              && q.app.packageName in o.packages
              && var p := o.packages[q.app.packageName];
                 o.result.value
                 == Observation(p.reportedName, p.versionName, p.versionCode, p.signer, o.issued, q.desired.level)
  {
    hide ValidateUpdateCandidate, ResolveApk;
  }

  /** Whether the device refuses these bytes: it is strict and knows a higher code of their package. */
  predicate Refuses(packages: map<string, Package>, apk: Apk, f: Faults) {
    && f.strict && apk.packageName in packages
    && match packages[apk.packageName].versionCode
       case None => false
       case Some(present) => apk.package.versionCode == None || present > apk.package.versionCode.value
  }

  /** What the command leaves: an application of its bytes or nothing, and an error for its fault or a refusal. */
  lemma CommandExact(packages: map<string, Package>, q: Request, f: Faults)
    requires Decide(packages, q, f.firstLook).Issue? && f.view == None
    ensures var o := InstallOutcome(packages, q, f);
            && o.issued
            && (o.packages == if !Refuses(packages, q.apk, f) && (f.command == None || f.applied)
                              then packages[q.apk.packageName := q.apk.package] else packages)
            && (f.command == Some(Cancelled) ==> o.result == Failure(OperationCancelled))
            && (f.command == Some(OtherFault) ==> o.result == Failure(InstallFailed))
            && (f.command == None && Refuses(packages, q.apk, f) ==> o.result == Failure(InstallFailed))
            && (f.command == None && !Refuses(packages, q.apk, f) ==>
                  && (f.secondLook == Some(Cancelled) ==> o.result == Failure(OperationCancelled))
                  && (f.secondLook == Some(OtherFault) ==> o.result == Failure(VerifyFailed)))
  {
    hide ValidateUpdateCandidate, ResolveApk;
  }

  /** And what it takes to get there. */
  lemma BeforeCommand(packages: map<string, Package>, q: Request, f: Faults)
    requires ResolveApk(q).None?
    ensures var o, d := InstallOutcome(packages, q, f), Decide(packages, q, f.firstLook);
            && (f.firstLook == Some(Cancelled) ==> o.result == Failure(OperationCancelled))
            && (f.firstLook == Some(OtherFault) ==> o.result == Failure(VerifyFailed))
            && (f.firstLook == None && q.app.packageName !in packages ==> d == Issue)
            && (d.Issue? && f.view == Some(BlobGone) ==> o == Outcome(packages, false, Failure(BlobMissing)))
            && (d.Issue? && f.view == Some(BlobUnsafe) ==> o == Outcome(packages, false, Failure(BlobInvalid)))
  {
    hide ValidateUpdateCandidate, ResolveApk;
  }

  /** When the second look works, the answer to an issued command is about what it finds. */
  lemma ConfirmExact(packages: map<string, Package>, q: Request)
    ensures var r, v := Confirm(packages, q, None), q.desired;
            && (q.app.packageName !in packages ==> r == Failure(PackageMismatch))
            && (q.app.packageName in packages ==>
                  var p := packages[q.app.packageName];
                  var foreign := p.reportedName != q.app.packageName || !("/data/app/" <= p.path);
                  var conflict := v.level.Verified? && Conflicts(p.signer, v.signer);
                  var exact := p.versionCode == v.versionCode
                               && (v.versionName == None || p.versionName == v.versionName);
                  && (foreign ==> r == Failure(PackageMismatch))
                  && (!foreign && !p.enabled ==> r == Failure(PackageDisabled))
                  && (!foreign && p.enabled && conflict ==> r == Failure(SignatureMismatch))
                  && (!foreign && p.enabled && !conflict && v.level.Verified? && !exact ==>
                        r == Failure(VerifyFailed))
                  && (r.Success? <==>
                        !foreign && p.enabled && !conflict && (v.level.Verified? ==> exact)))
  {
  }

  // ----- what success means -----

  /** The device state a verified version asks for. */
  predicate Converged(packages: map<string, Package>, app: App, desired: Version) {
    && app.packageName in packages
    && var p := packages[app.packageName];
       p.reportedName == app.packageName && StartsWith(p.path, DATA_APP) && p.enabled && !SignerConflict(p, desired)
       && IsExact(p, desired)
  }

  /** A verified install succeeds only on a device that has converged afterwards, and reports what is
      there; it says "changed" exactly when it issued the install command. */
  lemma SuccessConverges(packages: map<string, Package>, q: Request, f: Faults)
    requires q.desired.level.Verified?
    ensures var o := InstallOutcome(packages, q, f);
            o.result.Success? ==>
              && Converged(o.packages, q.app, q.desired)
              && o.result.value == Report(o.packages[q.app.packageName], q.desired, o.issued)
  {
  }

  /** Without faults `verify` succeeds exactly on converged devices, and on those a verified install issues
      no command and changes nothing. */
  lemma VerifyExact(packages: map<string, Package>, q: Request)
    requires q.desired.level.Verified? && ResolveApk(q).None?
    ensures VerifyOutcome(packages, q.app, q.desired, None).Success? <==> Converged(packages, q.app, q.desired)
    ensures Converged(packages, q.app, q.desired) ==>
              InstallOutcome(packages, q, NO_FAULTS)
              == Outcome(packages, false, VerifyOutcome(packages, q.app, q.desired, None))
  {
  }

  /** An immediate repeat of a successful verified install never issues a command, whatever goes wrong in
      it, and succeeds when nothing does. */
  lemma RepeatInstallsNothing(packages: map<string, Package>, q: Request, f: Faults, g: Faults)
    requires q.desired.level.Verified? && InstallOutcome(packages, q, f).result.Success?
    ensures var o := InstallOutcome(packages, q, f);
            var again := InstallOutcome(o.packages, q, g);
            again.packages == o.packages && !again.issued
            && (again.result.Success? <==> g.firstLook.None?)
            && (again.result.Success? ==> again.result.value == o.result.value.(changed := false))
  {
    SuccessConverges(packages, q, f);
  }

  // ----- when a command is issued -----

  /** Exactly when a call reaches the device: the version and its bytes are good, nothing failed before,
      and the package is either absent or a strictly older version that the database knows, with a signer
      that does not conflict. A basic version never replaces an installed package. And exactly when a call
      is refused as a downgrade: for an enabled package with a newer code whose signer does not conflict.
      A call that issues no command leaves the device alone; one that does touches the package of its bytes
      only. */
  lemma DecisionExact(packages: map<string, Package>, q: Request, f: Faults)
    ensures InstallOutcome(packages, q, f).issued <==>
              && ResolveApk(q).None? && f.firstLook.None? && f.view.None?
              && (q.app.packageName in packages ==>
                    var p := packages[q.app.packageName];
                    && p.reportedName == q.app.packageName && StartsWith(p.path, DATA_APP) && p.enabled
                    && q.desired.level.Verified? && !SignerConflict(p, q.desired)
                    && p.versionCode.Some? && p.versionCode.value < q.desired.versionCode.value
                    && KnownVersion(q.app.versions, p.versionCode.value).Some?
                    && (Given(q.desired.signer) ==>
                          KnownVersion(q.app.versions, p.versionCode.value).value.signer == q.desired.signer))
    ensures InstallOutcome(packages, q, f).result == Failure(DowngradeBlocked) <==>
              && ResolveApk(q).None? && f.firstLook.None? && q.desired.level.Verified? && q.app.packageName in packages
              && var p := packages[q.app.packageName];
                 && p.reportedName == q.app.packageName && StartsWith(p.path, DATA_APP) && p.enabled
                 && !SignerConflict(p, q.desired)
                 && p.versionCode.Some? && p.versionCode.value > q.desired.versionCode.value
    ensures var o := InstallOutcome(packages, q, f);
            && (!o.issued || o.result == Failure(DowngradeBlocked) ==> o.packages == packages)
            && (o.packages == packages || o.packages == packages[q.apk.packageName := q.apk.package])
  {
  }

  // ----- convergence -----

  /** What inspection promises of the bytes of a version: the package is the application's, and for a
      verified version it has the inspected version code. */
  predicate Faithful(q: Request) {
    && q.apk.packageName == q.app.packageName
    && (q.desired.level.Verified? ==> q.apk.package.versionCode == q.desired.versionCode)
  }

  /** A faithful, enabled build with the wanted name and signer converges in one call from an absent or
      a known older version. */
  lemma InstallConverges(packages: map<string, Package>, q: Request)
    requires q.desired.level.Verified? && Faithful(q) && ResolveApk(q).None?
    requires q.apk.package.reportedName == q.app.packageName && StartsWith(q.apk.package.path, DATA_APP)
    requires q.apk.package.enabled && !SignerConflict(q.apk.package, q.desired)
    requires q.desired.versionName.None? || q.apk.package.versionName == q.desired.versionName
    ensures var o := InstallOutcome(packages, q, NO_FAULTS);
            o.result.Success? <==> Converged(packages, q.app, q.desired) || o.issued
  {
  }

  // ----- version codes over a run -----

  /** Packages stay installed and no known version code goes down. */
  predicate NoDowngrade(before: map<string, Package>, after: map<string, Package>) {
    forall name :: name in before ==>
      && name in after
      && (before[name].versionCode.Some? ==>
            after[name].versionCode.Some? && before[name].versionCode.value <= after[name].versionCode.value)
  }

  /** One call does not downgrade, whether it succeeds, fails or half fails: a strict device refuses it,
      and with faithful bytes the call's own decision is enough on any device. */
  lemma CallKeepsCodes(packages: map<string, Package>, q: Request, f: Faults)
    requires Faithful(q) || f.strict
    ensures NoDowngrade(packages, InstallOutcome(packages, q, f).packages)
  {
    DecisionExact(packages, q, f);
  }

  datatype Call = Call(request: Request, faults: Faults)

  function RunCalls(packages: map<string, Package>, calls: seq<Call>): map<string, Package> {
    if calls == [] then packages
    else
      var last := calls[|calls| - 1];
      InstallOutcome(RunCalls(packages, calls[..|calls| - 1]), last.request, last.faults).packages
  }

  /** Over any run of install calls, of any versions of any applications and with any faults, no
      version code goes down as long as the bytes are faithful or the device is strict. */
  lemma {:induction false} RunKeepsCodes(packages: map<string, Package>, calls: seq<Call>)
    requires forall i :: 0 <= i < |calls| ==> Faithful(calls[i].request) || calls[i].faults.strict
    ensures NoDowngrade(packages, RunCalls(packages, calls))
  {
    if calls == [] {
    } else {
      var before, last := calls[..|calls| - 1], calls[|calls| - 1];
      RunKeepsCodes(packages, before);
      CallKeepsCodes(RunCalls(packages, before), last.request, last.faults);
    }
  }

  /** What the program's own checks are worth on a device that is not strict: exactly when the bytes hold
      the application's own package, no device and no fault makes a call take a version code down. A basic
      version is not inspected, so its bytes can hold another one. */
  lemma KeepsCodesExactly(q: Request)
    requires ResolveApk(q).None?
    requires q.desired.level.Verified? ==> q.apk.package.versionCode == q.desired.versionCode
    ensures (forall packages, f :: NoDowngrade(packages, InstallOutcome(packages, q, f).packages))
            <==> q.apk.packageName == q.app.packageName
  {
    if q.apk.packageName == q.app.packageName {
      forall packages, f ensures NoDowngrade(packages, InstallOutcome(packages, q, f).packages) {
        CallKeepsCodes(packages, q, f);
      }
    } else {
      var code := q.apk.package.versionCode;
      var higher := if code.None? then 0 else code.value + 1;
      var name, present := q.apk.packageName, q.apk.package.(versionCode := Some(higher));
      var packages, f := map[name := present], NO_FAULTS.(strict := false);
      assert name in packages && InstallOutcome(packages, q, f).packages[name] == q.apk.package;
      assert !NoDowngrade(packages, InstallOutcome(packages, q, f).packages);
    }
  }

  /** A call changes no package but the application's own. */
  predicate LeavesOthers(packages: map<string, Package>, q: Request, f: Faults) {
    var after := InstallOutcome(packages, q, f).packages;
    && (packages.Keys + {q.app.packageName} == after.Keys + {q.app.packageName})
    && forall name :: name in packages && name != q.app.packageName ==> after[name] == packages[name]
  }

  /** All other packages are left alone, on every device, if and only if the bytes hold the application's
      own package; otherwise a foreign one can be added or replaced even on a strict device. */
  lemma OthersUntouchedExactly(q: Request)
    requires ResolveApk(q).None?
    ensures (forall packages, f :: LeavesOthers(packages, q, f)) <==> q.apk.packageName == q.app.packageName
    ensures q.apk.packageName != q.app.packageName ==> !LeavesOthers(map[], q, NO_FAULTS)
  {
    if q.apk.packageName == q.app.packageName {
      forall packages, f ensures LeavesOthers(packages, q, f) {
        DecisionExact(packages, q, f);
      }
    } else {
      var name := q.apk.packageName;
      var none: map<string, Package> := map[];
      assert InstallOutcome(none, q, NO_FAULTS).packages == none[name := q.apk.package];
      assert name in InstallOutcome(none, q, NO_FAULTS).packages.Keys;
      assert !LeavesOthers(none, q, NO_FAULTS);
    }
  }

  /** A basic call for an absent application replaces another package by the one in its bytes, on a strict
      device if the code is not lower and on any other in every case, and reports a failure. */
  lemma ForeignPackageReplaced(present: Package, q: Request, strict: bool)
    requires ResolveApk(q).None? && q.apk.packageName != q.app.packageName
    requires strict ==> !Lowers(map[q.apk.packageName := present], q.apk)
    ensures var o := InstallOutcome(map[q.apk.packageName := present], q, NO_FAULTS.(strict := strict));
            o.packages == map[q.apk.packageName := q.apk.package] && o.result == Failure(PackageMismatch)
  {
  }

  // ----- many calls for one version -----

  /** After one call in which nothing went wrong, no later call of any run for the same version issues a
      command or changes the device, whatever goes wrong in it: either the device has converged or the same
      refusal comes back for good. */
  lemma {:induction false} IdleForEver(packages: map<string, Package>, calls: seq<Call>, q: Request, g: Faults)
    requires q.desired.level.Verified? && Faithful(q)
    requires forall i :: 0 <= i < |calls| ==> calls[i].request == q
    ensures var after := InstallOutcome(packages, q, NO_FAULTS).packages;
            RunCalls(after, calls) == after && !InstallOutcome(RunCalls(after, calls), q, g).issued
  {
    SecondCall(packages, q, g);
    if calls == [] {
    } else {
      var m := |calls| - 1;
      IdleForEver(packages, calls[..m], q, calls[m].faults);
      hide InstallOutcome, ResolveApk, Faithful;
      SecondCall(packages, q, calls[m].faults);
    }
  }

  lemma SecondCall(packages: map<string, Package>, q: Request, g: Faults)
    requires q.desired.level.Verified? && Faithful(q)
    ensures var after := InstallOutcome(packages, q, NO_FAULTS).packages;
            !InstallOutcome(after, q, g).issued && InstallOutcome(after, q, g).packages == after
  {
  }

  /** Over any run of calls for one faithful verified request, with any faults, the device changes at most
      once: up to some call it is as it was, afterwards it holds the package of the bytes. */
  lemma {:induction false} ChangesOnce(packages: map<string, Package>, calls: seq<Call>, q: Request) returns (n: nat)
    requires q.desired.level.Verified? && Faithful(q)
    requires forall i :: 0 <= i < |calls| ==> calls[i].request == q
    ensures forall i :: 0 <= i <= |calls| ==>
              RunCalls(packages, calls[..i])
              == if i <= n then packages else packages[q.app.packageName := q.apk.package]
  {
    if calls == [] {
      n := 0;
    } else {
      hide InstallOutcome, RunCalls, ResolveApk, Faithful;
      var m := |calls| - 1;
      var before, last := calls[..m], calls[m];
      n := ChangesOnce(packages, before, q);
      forall i | 0 <= i <= m ensures calls[..i] == before[..i] {}
      assert before[..m] == before && calls[..m + 1] == calls;
      var now := RunCalls(packages, before);
      DecisionExact(now, q, last.faults);
      assert q.apk.packageName == q.app.packageName by { FaithfulName(q); }
      LastCall(packages, calls);
      if n < m {
        AppliedStays(packages, q, last.faults);
      } else if InstallOutcome(now, q, last.faults).packages == packages {
        n := m + 1;
      } else {
        n := m;
      }
    }
  }

  lemma FaithfulName(q: Request)
    requires Faithful(q)
    ensures q.apk.packageName == q.app.packageName
  {
  }

  lemma LastCall(packages: map<string, Package>, calls: seq<Call>)
    requires calls != []
    ensures var m := |calls| - 1;
            RunCalls(packages, calls)
            == InstallOutcome(RunCalls(packages, calls[..m]), calls[m].request, calls[m].faults).packages
  {
    hide InstallOutcome;
  }

  /** Once the bytes are on the device no call for them issues a command. */
  lemma AppliedStays(packages: map<string, Package>, q: Request, f: Faults)
    requires q.desired.level.Verified? && Faithful(q)
    ensures var now := packages[q.app.packageName := q.apk.package];
            !InstallOutcome(now, q, f).issued && InstallOutcome(now, q, f).packages == now
  {
    DecisionExact(packages[q.app.packageName := q.apk.package], q, f);
    hide InstallOutcome;
  }

  // ----- basic versions -----

  /** Repeating a successful basic install with what it reported succeeds without a command exactly when
      it reported a code or a name, or the version asks for neither. */
  lemma BasicRepeatExact(packages: map<string, Package>, q: Request, f: Faults)
    requires q.desired.level.Basic? && InstallOutcome(packages, q, f).result.Success?
    ensures var o := InstallOutcome(packages, q, f);
            var seen := o.result.value;
            var again := q.(knownInstalled := true, knownName := seen.versionName, knownCode := seen.versionCode);
            var repeated := InstallOutcome(o.packages, again, NO_FAULTS);
            && !repeated.issued && repeated.packages == o.packages
            && (repeated.result.Success? <==>
                  seen.versionName.Some? || seen.versionCode.Some?
                  || (q.desired.versionName.None? && q.desired.versionCode.None?))
  {
  }

  /** A basic install without remembered versions is refused by anything installed that is not exactly
      the version asked for. */
  lemma BasicNeverUpdates(packages: map<string, Package>, q: Request, f: Faults)
    requires q.desired.level.Basic? && q.app.packageName in packages
    ensures var o := InstallOutcome(packages, q, f);
            !o.issued && o.packages == packages
            && (o.result.Success? ==> IsExact(packages[q.app.packageName], q.desired)
                                      || (q.knownInstalled
                                          && MatchesKnownBasic(packages[q.app.packageName], q.knownName, q.knownCode)))
  {
  }
}
