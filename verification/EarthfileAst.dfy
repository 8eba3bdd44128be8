/** The parsed tree of an Earthfile as earthly/earthfile walks it, and the commands it hands out. */
module EarthfileAst {
  import opened Optional

  type Block = seq<Statement>

  datatype OptionalBlock = NoBlock | Body(block: Block)

  /** A named command with its arguments. */
  datatype AstCommand = AstCommand(name: string, args: seq<string>)

  /** Every field is a pointer in the source; the parser sets exactly one of them. */
  datatype Statement = Statement(
    command: Option<AstCommand>,
    with: Option<WithStatement>,
    cond: Option<IfStatement>,
    try: Option<TryStatement>,
    loop: Option<ForStatement>,
    wait: Option<WaitStatement>)

  datatype WithStatement = WithStatement(command: AstCommand, body: Block)
  datatype ElseIf = ElseIf(expression: seq<string>, body: Block)
  datatype IfStatement = IfStatement(expression: seq<string>, ifBody: Block, elseIfs: seq<ElseIf>, elseBody: OptionalBlock)
  datatype TryStatement = TryStatement(tryBody: Block, catchBody: OptionalBlock, finallyBody: OptionalBlock)
  datatype ForStatement = ForStatement(args: seq<string>, body: Block)
  datatype WaitStatement = WaitStatement(body: Block)

  datatype Recipe = Recipe(name: string, body: Block)

  datatype Ast = Ast(baseRecipe: Block, targets: seq<Recipe>, functions: seq<Recipe>)

  datatype CommandType =
    | Unknown | From | Run | Copy | Build | Arg | SaveArtifact | SaveImage | Cmd | Entrypoint | Expose | Volume | Env
    | Workdir | User | GitClone | Add | Stopsignal | Onbuild | Healthcheck | Shell | Do | Command | Import | Version
    | FromDockerfile | Locally | Host | Project | Cache | Set | Let | Try | With | If | For | Wait

  function GetCommandType(name: string): CommandType {
    match name
    case "FROM" => From
    case "RUN" => Run
    case "COPY" => Copy
    case "BUILD" => Build
    case "ARG" => Arg
    case "SAVE ARTIFACT" => SaveArtifact
    case "SAVE IMAGE" => SaveImage
    case "CMD" => CommandType.Cmd
    case "ENTRYPOINT" => Entrypoint
    case "EXPOSE" => Expose
    case "VOLUME" => Volume
    case "ENV" => Env
    case "WORKDIR" => Workdir
    case "USER" => User
    case "GIT CLONE" => GitClone
    case "ADD" => Add
    case "STOPSIGNAL" => Stopsignal
    case "ONBUILD" => Onbuild
    case "HEALTHCHECK" => Healthcheck
    case "SHELL" => Shell
    case "DO" => Do
    case "COMMAND" => Command
    case "IMPORT" => Import
    case "VERSION" => Version
    case "FROM DOCKERFILE" => FromDockerfile
    case "LOCALLY" => Locally
    case "HOST" => Host
    case "PROJECT" => Project
    case "CACHE" => Cache
    case "SET" => Set
    case "LET" => Let
    case "TRY" => Try
    case "WITH" => With
    case "IF" => If
    case "ELSE IF" => If
    case "ELSE" => If
    case "FOR" => For
    case "WAIT" => Wait
    case "END" => Wait
    case _ => Unknown
  }

  /** CommandType.String. */
  function TypeName(t: CommandType): string {
    match t
    case Unknown => "UNKNOWN"
    case From => "FROM"
    case Run => "RUN"
    case Copy => "COPY"
    case Build => "BUILD"
    case Arg => "ARG"
    case SaveArtifact => "SAVE ARTIFACT"
    case SaveImage => "SAVE IMAGE"
    case Cmd => "CMD"
    case Entrypoint => "ENTRYPOINT"
    case Expose => "EXPOSE"
    case Volume => "VOLUME"
    case Env => "ENV"
    case Workdir => "WORKDIR"
    case User => "USER"
    case GitClone => "GIT CLONE"
    case Add => "ADD"
    case Stopsignal => "STOPSIGNAL"
    case Onbuild => "ONBUILD"
    case Healthcheck => "HEALTHCHECK"
    case Shell => "SHELL"
    case Do => "DO"
    case Command => "COMMAND"
    case Import => "IMPORT"
    case Version => "VERSION"
    case FromDockerfile => "FROM DOCKERFILE"
    case Locally => "LOCALLY"
    case Host => "HOST"
    case Project => "PROJECT"
    case Cache => "CACHE"
    case Set => "SET"
    case Let => "LET"
    case Try => "TRY"
    case With => "WITH"
    case If => "IF"
    case For => "FOR"
    case Wait => "WAIT"
  }

  // The table is gone through in four parts.
  const FirstTypes := {
    From, Run, Copy, Build, Arg, SaveArtifact, SaveImage, CommandType.Cmd, Entrypoint, Expose,
    Volume, Env, Workdir, User, GitClone, Add}
  const MoreTypes := {Stopsignal, Onbuild, Healthcheck, Shell, Do, Command, Import, Version, FromDockerfile}
  const LaterTypes := {Locally, Host, Project, Cache, Set, Let}
  const ControlTypes := {Try, With, If, For, Wait}

  lemma FirstNames(t: CommandType)
    requires t in FirstTypes
    ensures GetCommandType(TypeName(t)) == t
  {
  }

  lemma MoreNames(t: CommandType)
    requires t in MoreTypes
    ensures GetCommandType(TypeName(t)) == t
  {
  }

  lemma LaterNames(t: CommandType)
    requires t in LaterTypes
    ensures GetCommandType(TypeName(t)) == t
  {
  }

  lemma ControlNames(t: CommandType)
    requires t in ControlTypes
    ensures GetCommandType(TypeName(t)) == t
  {
  }

  /** The type of a type's name is that type. */
  lemma TypeOfTypeName(t: CommandType)
    ensures GetCommandType(TypeName(t)) == t
  {
    if t in FirstTypes {
      FirstNames(t);
    } else if t in MoreTypes {
      MoreNames(t);
    } else if t in LaterTypes {
      LaterNames(t);
    } else if t in ControlTypes {
      ControlNames(t);
    }
  }

  /** A name with a type is the name of that type, but for ELSE IF, ELSE and END. */
  lemma NameOfType(name: string)
    ensures var t := GetCommandType(name);
            t == Unknown || TypeName(t) == name || (t == If && name in {"ELSE IF", "ELSE"}) || (t == Wait && name == "END")
  {
  }

  /** A command as callers see it: converted from the tree, or made up by a walker for a control statement. */
  datatype Cmd = Plain(name: string, args: seq<string>) | Control(name: string, ctype: CommandType, args: seq<string>)

  function TypeOf(c: Cmd): CommandType {
    match c
    case Plain(name, _) => GetCommandType(name)
    case Control(_, ctype, _) => ctype
  }

  function ConvertCommand(c: AstCommand): Cmd {
    Plain(c.name, c.args)
  }

  /** The types that dependencies come from belong to plain commands of that very name. */
  lemma DependencyTypes(name: string)
    ensures GetCommandType(name).Build? <==> name == "BUILD"
    ensures GetCommandType(name).From? <==> name == "FROM"
    ensures GetCommandType(name).Copy? <==> name == "COPY"
  {
  }
}
