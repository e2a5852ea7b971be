/** `buildResource` of `src/resource.ts`: the attribute record of the SDK's
    resource, built from the options, the device lookups (each optional and
    each possibly answering `null`/`undefined`), and the caller's attributes
    spread last. The merge with `Resource.default()` is foreign and left out. */
module ResourceBuilder {
  import opened Wrappers
  import opened Records
  import AnyValues

  type HostValue = AnyValues.HostValue

  const ServiceName: string := "service.name"
  const DeploymentEnvironment: string := "deployment.environment"
  const ServiceVersion: string := "service.version"
  const DeviceManufacturer: string := "device.manufacturer"
  const DeviceModel: string := "device.model"
  const DeviceOs: string := "device.os"
  const AppBundle: string := "app.bundle"
  const AppBuild: string := "app.build"
  const AppIsEmulator: string := "app.isEmulator"

  const Unknown: string := "unknown"

  /** `DeviceInfo.getX?.()`: the method may be missing, may answer
      `null`/`undefined`, or may answer a value. */
  datatype Lookup<T> = Missing | ReturnsNullish | Returns(value: T)

  /** `lookup?.() ?? fallback`: the fallback replaces only a missing method or
      a nullish answer, so an empty string is kept. */
  function OrElse<T>(l: Lookup<T>, fallback: T): (v: T)
    ensures l.Returns? ==> v == l.value
    ensures !l.Returns? ==> v == fallback
  {
    match l
    case Returns(value) => value
    case _ => fallback
  }

  datatype DeviceInfo = DeviceInfo(
    getVersion: Lookup<string>,
    getManufacturerSync: Lookup<string>,
    getModel: Lookup<string>,
    getSystemName: Lookup<string>,
    getSystemVersion: Lookup<string>,
    getBundleId: Lookup<string>,
    getBuildNumber: Lookup<string>,
    isEmulatorSync: Lookup<bool>)

  /** The options `buildResource` reads; `None` is `null` or `undefined`. */
  datatype ResourceOptions = ResourceOptions(
    serviceName: string,
    environment: Option<string>,
    release: Option<string>,
    attributes: Option<Record<HostValue>>)

  /** The object literal before the caller's spread, in its key order. */
  function BuiltIn(opts: ResourceOptions, device: DeviceInfo): Record<HostValue> {
    [ (ServiceName, AnyValues.Str(opts.serviceName)),
      (DeploymentEnvironment, AnyValues.Str(opts.environment.GetOr("dev"))),
      (ServiceVersion, AnyValues.Str(if opts.release.Some? then opts.release.value else OrElse(device.getVersion, Unknown))),
      (DeviceManufacturer, AnyValues.Str(OrElse(device.getManufacturerSync, Unknown))),
      (DeviceModel, AnyValues.Str(OrElse(device.getModel, Unknown))),
      (DeviceOs, AnyValues.Str(OrElse(device.getSystemName, Unknown) + " " + OrElse(device.getSystemVersion, ""))),
      (AppBundle, AnyValues.Str(OrElse(device.getBundleId, Unknown))),
      (AppBuild, AnyValues.Str(OrElse(device.getBuildNumber, Unknown))),
      (AppIsEmulator, AnyValues.Bool(OrElse(device.isEmulatorSync, false))) ]
  }

  /** The attribute record of `buildResource`: the built-in attributes with
      the caller's attributes spread over them. A caller key takes its value
      from the caller, every other key keeps its built-in value, no key is
      duplicated, and the record holds exactly the keys of both. */
  function BuildAttributes(opts: ResourceOptions, device: DeviceInfo): (r: Record<HostValue>)
    requires opts.attributes.Some? ==> UniqueKeys(opts.attributes.value)
    ensures UniqueKeys(r)
    ensures forall k ::
              Get(r, k) == if opts.attributes.Some? && HasKey(opts.attributes.value, k)
                           then Get(opts.attributes.value, k) else Get(BuiltIn(opts, device), k)
    ensures forall k :: HasKey(r, k) <==>
      HasKey(BuiltIn(opts, device), k) || (opts.attributes.Some? && HasKey(opts.attributes.value, k))
  {
    var base := BuiltIn(opts, device);
    var caller := opts.attributes.GetOr([]);
    BuiltInUnique(opts, device);
    SpreadUnique(base, caller);
    assert forall k ::
             Get(Spread(base, caller), k) == if HasKey(caller, k) then Get(caller, k) else Get(base, k) by {
      forall k ensures Get(Spread(base, caller), k) == if HasKey(caller, k) then Get(caller, k) else Get(base, k) {
        SpreadGet(base, caller, k);
      }
    }
    Spread(base, caller)
  }

  lemma BuiltInUnique(opts: ResourceOptions, device: DeviceInfo)
    ensures UniqueKeys(BuiltIn(opts, device))
  {
    var b := BuiltIn(opts, device);
    var keys := [ServiceName, DeploymentEnvironment, ServiceVersion, DeviceManufacturer, DeviceModel,
                 DeviceOs, AppBundle, AppBuild, AppIsEmulator];
    assert forall i :: 0 <= i < |b| ==> b[i].0 == keys[i];
  }

  /** The value of each built-in attribute when the caller does not override
      it: the documented defaults `dev`, `unknown`, `false`, the release ahead
      of the device's version, and the operating system as name, a space and
      version. */
  lemma BuiltInAttributes(opts: ResourceOptions, device: DeviceInfo)
    requires opts.attributes.None? || opts.attributes.value == []
    ensures var r := BuildAttributes(opts, device);
      && Get(r, ServiceName) == Some(AnyValues.Str(opts.serviceName))
      && Get(r, DeploymentEnvironment) == Some(AnyValues.Str(if opts.environment.Some? then opts.environment.value else "dev"))
      && Get(r, ServiceVersion) == Some(AnyValues.Str(
           if opts.release.Some? then opts.release.value
           else if device.getVersion.Returns? then device.getVersion.value else Unknown))
      && Get(r, DeviceManufacturer) == Some(AnyValues.Str(OrElse(device.getManufacturerSync, Unknown)))
      && Get(r, DeviceModel) == Some(AnyValues.Str(OrElse(device.getModel, Unknown)))
      && Get(r, DeviceOs) == Some(AnyValues.Str(
           (if device.getSystemName.Returns? then device.getSystemName.value else Unknown) + " " +
           (if device.getSystemVersion.Returns? then device.getSystemVersion.value else "")))
      && Get(r, AppBundle) == Some(AnyValues.Str(OrElse(device.getBundleId, Unknown)))
      && Get(r, AppBuild) == Some(AnyValues.Str(OrElse(device.getBuildNumber, Unknown)))
      && Get(r, AppIsEmulator) == Some(AnyValues.Bool(device.isEmulatorSync.Returns? && device.isEmulatorSync.value))
  {
    var b := BuiltIn(opts, device);
    BuiltInUnique(opts, device);
    GetAt(b, 0); GetAt(b, 1); GetAt(b, 2); GetAt(b, 3); GetAt(b, 4);
    GetAt(b, 5); GetAt(b, 6); GetAt(b, 7); GetAt(b, 8);
    var r := BuildAttributes(opts, device);
    forall k ensures Get(r, k) == Get(b, k) {
      if opts.attributes.Some? {
        assert !HasKey(opts.attributes.value, k);
      }
    }
  }
}
