/** The concrete Docker-stack services: Drone CI and Immich, which carry
    their own copies of the status parser with a fixed project name, the
    packaged Immich service with its overriding methods and its fallback
    base class, and Certbot with the shared base or its fallback copy.

    Each is described by one record; the behaviour of every copy is the
    shared rule of `DockerService` applied to the record's fields. */
module Services {
  import opened Wrappers
  import opened Text
  import DS = DockerService

  /** How a service restarts: through its mkconf script, or by restarting
      one container of the compose stack in `stackDir`. */
  datatype RestartMode = MkconfRestart | ContainerRestart(stackDir: String, container: String)

  /** Which `getLogs` a service offers: none (the stand-alone classes and
      the fallback base packaged with Immich), the shared base's, which
      takes an optional compose service, or the fallback Certbot copy's,
      which always reads the whole stack. */
  datatype LogsMode = NoLogs | ServiceLogs | StackLogs

  /** What distinguishes one service class from another. */
  datatype Service = Service(
    name: String,
    mkconfScript: String,
    project: String,
    restart: RestartMode,
    logs: LogsMode)

  const MkconfDir: String := "/usr/share/openmediavault/mkconf/"
  const DataDir: String := "/srv/dev-disk-by-label-data/"

  /** `ServiceDroneCI`, a stand-alone class. */
  const DroneCi: Service :=
    Service("DroneCI", MkconfDir + "drone-ci", "drone-ci",
            ContainerRestart(DataDir + "drone-ci", "drone-server"), NoLogs)

  /** `ServiceImmich` of the source tree, a stand-alone class. */
  const Immich: Service :=
    Service("Immich", MkconfDir + "immich", "immich",
            ContainerRestart(DataDir + "immich", "immich-server"), NoLogs)

  /** The fallback `BaseDockerService` packaged with Immich, before the
      override: every action goes through mkconf and there is no getLogs. */
  const ImmichFallbackBase: Service :=
    Service("Immich", MkconfDir + "immich", "immich", MkconfRestart, NoLogs)

  /** `ServiceCertbot` on the shared base. */
  const Certbot: Service :=
    Service("Certbot", MkconfDir + "certbot", "certbot", MkconfRestart, ServiceLogs)

  /** `ServiceCertbot` on its fallback copy of the base. */
  const CertbotFallback: Service :=
    Service("Certbot", MkconfDir + "certbot", "certbot", MkconfRestart, StackLogs)

  /** The packaged `ServiceImmich`, whose overrides restart the server
      container, on the shared base or on the fallback base. */
  function PackagedImmich(sharedBase: bool): (s: Service)
    ensures s.restart == Immich.restart && s.project == Immich.project
    ensures s.logs.ServiceLogs? <==> sharedBase
  {
    Immich.(logs := if sharedBase then ServiceLogs else NoLogs)
  }

  /** The packaged Immich module as written: its overrides are annotated
      with `Dict` and call `subprocess`, `LOGGER` and `_run_command`, which
      only the fallback branch imports or defines. Defining the class when
      the shared base was found evaluates `Dict[str, Any]` and raises
      `NameError`, so no service is registered. */
  function PackagedImmichAsWritten(sharedBase: bool): Result<Service, String> {
    if sharedBase then Failure("NameError: name 'Dict' is not defined")
    else Success(PackagedImmich(false))
  }

  /** The command an action runs. */
  function ActionCommand(s: Service, v: DS.Verb): (cmd: seq<String>)
    ensures v != DS.Restart || s.restart.MkconfRestart? ==> cmd == DS.MkconfCommand(s.mkconfScript, v)
  {
    match (v, s.restart)
    case (Restart, ContainerRestart(dir, container)) =>
      ["docker", "compose", "-f", dir + "/docker-compose.yml", "--env-file", dir + "/.env", "restart", container]
    case _ => DS.MkconfCommand(s.mkconfScript, v)
  }

  /** install, remove and restart of a service. */
  function Action(s: Service, v: DS.Verb, returncode: int): Result<String, DS.CommandError> {
    DS.ActionReply(v, ActionCommand(s, v), returncode)
  }

  /** `getLogs(service)` of a service that has one; the fallback Certbot
      copy takes no argument and reads the whole stack. */
  function Logs(s: Service, service: Option<String>, exec: (seq<String>, String) -> DS.LogsRun): Option<DS.LogsReply> {
    match s.logs
    case NoLogs => None
    case ServiceLogs => Some(DS.GetLogs(s.project, service, exec))
    case StackLogs => Some(DS.GetLogs(s.project, None, exec))
  }

  /** `getStatus` of a service. */
  function Status(s: Service, listing: DS.Listing): DS.StackStatus {
    DS.GetStatus(listing, s.project)
  }

  /** The restart of Drone CI and of the Immich service restarts only the
      server container, through the stack's compose and environment files;
      the fallback base and Certbot restart through mkconf instead. */
  lemma RestartCommands()
    ensures ActionCommand(DroneCi, DS.Restart) ==
      ["docker", "compose", "-f", DataDir + "drone-ci/docker-compose.yml",
       "--env-file", DataDir + "drone-ci/.env", "restart", "drone-server"]
    ensures ActionCommand(Immich, DS.Restart) ==
      ["docker", "compose", "-f", DataDir + "immich/docker-compose.yml",
       "--env-file", DataDir + "immich/.env", "restart", "immich-server"]
    ensures ActionCommand(ImmichFallbackBase, DS.Restart) == ["/bin/bash", MkconfDir + "immich", "restart"]
    ensures ActionCommand(Certbot, DS.Restart) == ["/bin/bash", MkconfDir + "certbot", "restart"]
  {
    assert DataDir + "drone-ci" + "/docker-compose.yml" == DataDir + "drone-ci/docker-compose.yml";
    assert DataDir + "drone-ci" + "/.env" == DataDir + "drone-ci/.env";
    assert DataDir + "immich" + "/docker-compose.yml" == DataDir + "immich/docker-compose.yml";
    assert DataDir + "immich" + "/.env" == DataDir + "immich/.env";
  }

  /** Install and remove run the service's own mkconf script with the
      method's name, for every service; the override and the fallback base
      of Immich differ only in how they restart. */
  lemma InstallRemoveUseMkconf(s: Service, v: DS.Verb)
    requires v != DS.Restart
    ensures ActionCommand(s, v) == ["/bin/bash", s.mkconfScript, DS.VerbName(v)]
    ensures ActionCommand(Immich, v) == ActionCommand(ImmichFallbackBase, v)
    ensures ActionCommand(Immich, DS.Restart) != ActionCommand(ImmichFallbackBase, DS.Restart)
  {
    assert ActionCommand(Immich, DS.Restart)[0] == "docker";
  }

  /** The stacks whose status the panels show, in the source tree. */
  const Stacks: seq<Service> := [DroneCi, Immich, Certbot]

  /** The stacks have pairwise distinct project names, so a listing line
      names at most one of them: a running Drone CI never makes Immich or
      Certbot look running, and so on. */
  lemma ProjectsDistinct(line: String, i: nat, j: nat)
    requires i < j < |Stacks|
    ensures Stacks[i].project != Stacks[j].project
    ensures DS.Matches(line, Stacks[i].project) ==> !DS.Matches(line, Stacks[j].project)
  {
    DS.OneProjectPerLine(line, Stacks[i].project, Stacks[j].project);
  }

  /** Two services with different projects read one listing independently:
      the lines of the other service's stack, inserted anywhere, leave this
      service's match unchanged. */
  lemma StatusIgnoresOtherStacks(s: Service, t: Service, a: seq<String>, other: seq<String>, b: seq<String>)
    requires s.project != t.project
    requires forall l <- other :: DS.Matches(l, t.project)
    ensures DS.FirstMatch(a + other + b, s.project) == DS.FirstMatch(a + b, s.project)
  {
    forall l <- other
      ensures !DS.Matches(l, s.project)
    {
      DS.OneProjectPerLine(l, t.project, s.project);
    }
    DS.OtherProjectsIgnored(a, other, b, s.project);
  }

  /** Both Certbot variants read the logs in the Certbot stack directory;
      the shared base narrows to the requested compose service, the
      fallback copy always reads every service, so they agree exactly when
      no service is requested. */
  lemma CertbotLogs(service: Option<String>, exec: (seq<String>, String) -> DS.LogsRun)
    ensures Logs(CertbotFallback, service, exec) ==
      Some(DS.LogsReplyOf(exec(["docker", "compose", "logs", "--tail=100"], DataDir + "certbot")))
    ensures service.None? || service.value == [] ==> Logs(Certbot, service, exec) == Logs(CertbotFallback, service, exec)
    ensures service.Some? && service.value != [] ==>
      Logs(Certbot, service, exec) ==
        Some(DS.LogsReplyOf(exec(["docker", "compose", "logs", "--tail=100", service.value], DataDir + "certbot")))
  {
    if service.Some? && service.value != [] {
      assert DS.LogsCommand(service) == ["docker", "compose", "logs", "--tail=100", service.value];
    }
  }

  /** The packaged Immich service fails to load exactly when the shared base
      is installed; where it loads it is the corrected service. */
  lemma PackagedImmichLoads(sharedBase: bool)
    ensures PackagedImmichAsWritten(sharedBase).Failure? <==> sharedBase
    ensures !sharedBase ==> PackagedImmichAsWritten(sharedBase) == Success(PackagedImmich(sharedBase))
  {
  }

  /** On either base the corrected packaged Immich service restarts only the
      server container and reports the status of the `immich` project. */
  lemma PackagedImmichBehaves(sharedBase: bool, v: DS.Verb, listing: DS.Listing)
    ensures ActionCommand(PackagedImmich(sharedBase), v) == ActionCommand(Immich, v)
    ensures Status(PackagedImmich(sharedBase), listing) == Status(Immich, listing)
  {
  }
}
