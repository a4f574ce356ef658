# Gestão de projetos — domain-integrity model

A Dafny model of the in-memory project, team and user manager: the three
entities (`Usuario`, `Projeto`, `Equipe`), the three list-backed
repositories that store them, and the three services that validate input
and enforce the uniqueness and team-membership policy before touching a
repository.

- `wrappers.dfy` — `Option`, and the `Result`/`Failure` pair that stands for
  the services' `IllegalArgumentException`s (one failure kind per check).
- `lists.dfy` — the list semantics the Java code gets from streams and
  `ArrayList`: first match (`findFirst`), `filter`, `count`, `removeIf`,
  `List.remove(Object)`, the replace-by-id scan, and a stable descending
  sort, with their lemmas.
- `text.dfy` — `trim`, `equalsIgnoreCase`, `replaceAll("[^0-9]", "")` and
  the e-mail pattern as explicit ASCII character predicates.
- `usuario.dfy`, `projeto.dfy`, `equipe.dfy` — the entities as values; each
  setter is a function returning the updated entity.
- `usuario_repository.dfy`, `projeto_repository.dfy`,
  `equipe_repository.dfy` — one class per repository, holding its list as a
  `seq` field that the mutating methods reassign; the three `atualizar`
  scans are `while` loops with invariants.
- `usuario_service.dfy`, `projeto_service.dfy`, `equipe_service.dfy` — one
  class per service, holding its repository; the validation chains are
  functions whose contracts name the first failing check.

Modelling choices:

- Users are compared by id wherever the source compares `Usuario`
  references (`contemMembro`, `removerMembro`, `listarPorGerente`), since
  `Usuario` has no `equals` and every user gets a fresh id.
- Ids are strings supplied by the caller. Distinct ids are not assumed: the
  facts that need them are stated as implications.
- Dates are integer day numbers. "Today" is a parameter `hoje`.
- A failed check returns `Err(failure)` and leaves the store as it was.
  This is where the source throws.
- The membership operations of the team service change the stored team
  where it sits (the list position `buscarPorNome` found). They then write
  it back with `atualizar`, as the source does through the shared object
  reference. `atualizarStatusProjeto` is modelled the same way.
- Three behaviours of the code are modelled as written:
  - Project registration checks only that a manager is present. It does
    not check that the manager is a registered user.
  - The write-back after a membership change finds the stored team by its
    id, which the change leaves as it was, so it always succeeds.
  - The CPF duplicate check compares the raw strings, so a punctuated CPF
    and the same number typed bare can both be registered.

## Model

| member | source | states |
|---|---|---|
| Usuarios.Usuario.SetEmail | src/model/Usuario.java:70-72 | only the e-mail changes; id, name, CPF, login, job title, password and role are kept |
| Usuarios.Usuario.SetCargo | src/model/Usuario.java:74-76 | only the job title changes; every other field is kept |
| Usuarios.Usuario.SetSenha | src/model/Usuario.java:78-80 | only the password changes, and afterwards `verificarSenha` accepts the new password |
| Usuarios.Usuario.SetPerfil | src/model/Usuario.java:82-84 | only the role changes; every other field is kept |
| Usuarios.AlteracoesPreservamIdentidade | src/model/Usuario.java:69-84 | no series of setter calls changes id, full name, CPF or login |
| Usuarios.Usuario.ValidarCpf | src/model/Usuario.java:87-93 | a user's CPF is valid iff it contains exactly eleven decimal digits |
| Usuarios.Usuario.VerificarSenha | src/model/Usuario.java:107-109 | the typed password is accepted iff it has the stored password's length and the same character at every position |
| Usuarios.CpfValidoCountsDigits | src/model/Usuario.java:87-93 | `validarCPF` holds iff the CPF contains exactly eleven decimal digits, whatever else it contains |
| Usuarios.CpfFormatosDistintos | src/model/Usuario.java:87-93 | the punctuated form `ddd.ddd.ddd-dd` of an eleven-digit CPF strips back to the bare digits; both forms are valid, yet they are different strings |
| Projetos.NovoProjeto | src/model/Projeto.java:24-33 | the constructor stores every argument unchanged and starts in `PLANEJADO`; the new project is late exactly after its expected end |
| Projetos.Projeto.SetNome | src/model/Projeto.java:65-67 | only the name changes; id, start date, description, expected end, status and manager are kept |
| Projetos.Projeto.SetDescricao | src/model/Projeto.java:69-71 | only the description changes; every other field is kept |
| Projetos.Projeto.SetDataTerminoPrevista | src/model/Projeto.java:73-75 | only the expected end changes; every other field is kept |
| Projetos.Projeto.SetStatus | src/model/Projeto.java:77-79 | only the status changes, any status may follow any other, and a project set to `CONCLUIDO` is late on no day |
| Projetos.Projeto.SetGerente | src/model/Projeto.java:81-83 | only the manager changes; every other field is kept |
| Projetos.Projeto.DuracaoPrevista | src/model/Projeto.java:92-94 | start plus duration is the expected end, so the duration is non-negative iff start is not after the expected end |
| Projetos.Projeto.EstaAtrasado | src/model/Projeto.java:86-89 | a late project is never completed, and a project is late iff it is not completed and more days than its planned duration have passed since its start |
| Projetos.AtrasoPorStatus | src/model/Projeto.java:86-89 | a completed project is never late; any other project is late iff today is after the expected end; once late, it stays late on every later day |
| Projetos.CicloDeAtraso | src/model/Projeto.java:86-89 | a new project is not late on its expected end day, is late on the next day, and is not late once completed |
| Equipes.NovaEquipe | src/model/Equipe.java:20-26 | a new team has the given id, name and description, no members, and so no repeated member |
| Equipes.Equipe.SetNome | src/model/Equipe.java:50-52 | only the name changes; id, description and members are kept |
| Equipes.Equipe.SetDescricao | src/model/Equipe.java:54-56 | only the description changes; id, name and members are kept |
| Equipes.Equipe.ContemMembro | src/model/Equipe.java:70-72 | the user is a member iff the scan of the member list for the user's id finds it |
| Equipes.Equipe.QuantidadeMembros | src/model/Equipe.java:75-77 | the count is the length of the member list, and it is zero iff no user is a member |
| Equipes.Equipe.AdicionarMembro | src/model/Equipe.java:59-63 | `u` is a member afterwards; if it already was, the team is unchanged; otherwise it is appended and the size grows by one; membership is the old membership plus `u`; a team without repeated members keeps that property |
| Equipes.Equipe.RemoverMembro | src/model/Equipe.java:65-67 | an absent user leaves the team unchanged; a present one shrinks it by one; no new member appears; without repeated members the user is gone afterwards, no member repeats, and the rest are the old members with that user filtered out |
| Equipes.RemocaoMantemOrdem | src/model/Equipe.java:65-67 | the members left after a removal keep their relative order |
| Equipes.AdicionarRemoverInverso | src/model/Equipe.java:59-67 | adding a new member and then removing it gives back the original team |
| Equipes.Equipe.ListarGerentes | src/model/Equipe.java:80-84 | a user is listed iff they are a member whose role is manager, and as many are listed as the members with that role |
| Equipes.GerentesEmOrdem | src/model/Equipe.java:80-84 | the listed managers keep member order: they are a subsequence of the members |
| Equipes.Equipe.Equals | src/model/Equipe.java:99-104 | a team equals exactly the teams the by-id lookup and replacement match for its id |
| RepositorioUsuarios.UsuarioRepository.constructor | src/repository/UsuarioRepository.java:19-21 | a new repository is empty, so its CPFs are distinct |
| RepositorioUsuarios.UsuarioRepository.Adicionar | src/repository/UsuarioRepository.java:28-34 | succeeds iff no stored user has exactly that CPF string; on success the user is appended, otherwise nothing changes; distinct CPFs stay distinct |
| RepositorioUsuarios.UsuarioRepository.BuscarPorCpf | src/repository/UsuarioRepository.java:41-45 | returns the first user whose CPF equals the argument exactly, and something iff such a user exists |
| RepositorioUsuarios.UsuarioRepository.BuscarPorLogin | src/repository/UsuarioRepository.java:52-56 | returns the first user whose login equals the argument exactly, and something iff such a user exists |
| RepositorioUsuarios.UsuarioRepository.ListarPorPerfil | src/repository/UsuarioRepository.java:71-75 | lists exactly the stored users with that role, in store order, as many as have it |
| RepositorioUsuarios.UsuarioRepository.Atualizar | src/repository/UsuarioRepository.java:82-90 | succeeds iff some stored user has the id; the first such position gets the new user and every other position is kept; otherwise nothing changes |
| RepositorioUsuarios.UsuarioRepository.Remover | src/repository/UsuarioRepository.java:97-99 | every user with that CPF goes and the rest keep their order; the answer is true iff the list shrank iff such a user existed; distinct CPFs stay distinct |
| RepositorioUsuarios.UsuarioRepository.Autenticar | src/repository/UsuarioRepository.java:107-122 | returns the first stored user with that login and exactly that password, and nothing iff no stored user has both |
| RepositorioUsuarios.AutenticarCoincideComCpf | src/repository/UsuarioRepository.java:107-122 | with distinct CPFs, the authenticated user is the one a lookup by their CPF finds |
| RepositorioProjetos.NomeLivre | src/repository/ProjetoRepository.java:29-35 | a name that matches no stored name ignoring case has a case-folded key that no stored project has |
| RepositorioProjetos.ProjetoRepository.constructor | src/repository/ProjetoRepository.java:20-22 | a new repository is empty, so its names are distinct |
| RepositorioProjetos.ProjetoRepository.Adicionar | src/repository/ProjetoRepository.java:29-35 | succeeds iff no stored name equals the project's name ignoring case; on success it is appended, otherwise nothing changes; names stay distinct ignoring case |
| RepositorioProjetos.ProjetoRepository.BuscarPorNome | src/repository/ProjetoRepository.java:42-46 | returns the first project whose name equals the argument ignoring case, and something iff one exists |
| RepositorioProjetos.ProjetoRepository.BuscarPorId | src/repository/ProjetoRepository.java:53-57 | returns the first project with that id, and something iff one exists |
| RepositorioProjetos.ProjetoRepository.ListarPorStatus | src/repository/ProjetoRepository.java:72-76 | lists exactly the stored projects with that status, in store order, as many as have it |
| RepositorioProjetos.ProjetoRepository.ListarPorGerente | src/repository/ProjetoRepository.java:83-87 | lists exactly the stored projects whose manager is that user, in store order, as many as match |
| RepositorioProjetos.ProjetoRepository.ListarPorIntervaloData | src/repository/ProjetoRepository.java:95-100 | lists exactly the projects starting no earlier than `inicio` and expected to end no later than `fim`, in store order, as many as match |
| RepositorioProjetos.ProjetoRepository.ListarProjetosAtrasados | src/repository/ProjetoRepository.java:149-153 | lists exactly the projects late on that day, in store order, as many as are late; none of them is completed |
| RepositorioProjetos.ProjetoRepository.ContarProjetosPorStatus | src/repository/ProjetoRepository.java:139-143 | the count is the length of the status listing, at most the number of projects, and zero iff no project has that status |
| RepositorioProjetos.ContagensSomamTotal | src/repository/ProjetoRepository.java:130-143 | the counts of the four statuses add up to the number of stored projects |
| RepositorioProjetos.ContagensPorStatus | src/repository/ProjetoRepository.java:139-143 | in any list of projects, the four per-status counts add up to its length |
| RepositorioProjetos.ProjetoRepository.Atualizar | src/repository/ProjetoRepository.java:107-115 | succeeds iff some stored project has the id; the first such position gets the new project and every other position is kept; otherwise nothing changes |
| RepositorioProjetos.ProjetoRepository.Remover | src/repository/ProjetoRepository.java:122-124 | every project with that name ignoring case goes and the rest keep their order; true iff the list shrank iff one existed; names stay distinct |
| RepositorioEquipes.NomeLivre | src/repository/EquipeRepository.java:28-34 | a name that matches no stored name ignoring case has a case-folded key that no stored team has |
| RepositorioEquipes.EquipeRepository.constructor | src/repository/EquipeRepository.java:19-21 | a new repository is empty, so its names are distinct |
| RepositorioEquipes.EquipeRepository.Adicionar | src/repository/EquipeRepository.java:28-34 | succeeds iff no stored name equals the team's name ignoring case; on success it is appended, otherwise nothing changes; names stay distinct ignoring case |
| RepositorioEquipes.EquipeRepository.BuscarPorNome | src/repository/EquipeRepository.java:41-45 | returns the first team whose name equals the argument ignoring case, and something iff one exists |
| RepositorioEquipes.EquipeRepository.BuscarPorId | src/repository/EquipeRepository.java:52-56 | returns the first team with that id, and something iff one exists |
| RepositorioEquipes.EquipeRepository.ListarPorMembro | src/repository/EquipeRepository.java:71-75 | lists exactly the stored teams that have the user as a member, in store order, as many as match |
| RepositorioEquipes.EquipeRepository.Atualizar | src/repository/EquipeRepository.java:82-90 | succeeds iff some stored team has the id; the first such position gets the new team and every other position is kept; otherwise nothing changes |
| RepositorioEquipes.EquipeRepository.Remover | src/repository/EquipeRepository.java:97-99 | every team with that name ignoring case goes and the rest keep their order; true iff the list shrank iff one existed; names stay distinct |
| RepositorioEquipes.EquipeRepository.ListarPorTamanho | src/repository/EquipeRepository.java:113-117 | the result is a permutation of the store with non-increasing member counts, and the teams of each size appear in store order (the sort is stable) |
| Lists.SortStable | src/repository/EquipeRepository.java:113-117 | sorting by a key keeps, for every key value, the elements with that value in their original order |
| RepositorioEquipes.PodAdicionarMembro | src/repository/EquipeRepository.java:125-128 | there is room iff the team has fewer than 10 members, and then adding any user leaves it within the cap |
| RepositorioEquipes.EquipeRepository.AdicionarMembroNaEquipe | src/repository/EquipeRepository.java:125-148 | succeeds iff a team with that name exists (ignoring case) and has fewer than 10 members; that team then has the member and nothing else changes; on failure nothing changes; the cap, distinct members and distinct names are kept |
| ServicoUsuarios.ValidarDadosUsuario | src/service/UsuarioService.java:53-120 | accepts iff trimmed name ≥ 3, eleven CPF digits, e-mail of the pattern, login ≥ 4, password ≥ 6; otherwise reports exactly the first failing check in that order |
| Text.Trim | src/service/UsuarioService.java:55 | the trimmed name is the slice of the input between its leading and trailing blanks, and starts and ends with a non-blank |
| Text.IsEmailMatchesPattern | src/service/UsuarioService.java:93-100 | splitting at the first '@' decides the pattern: local characters, one '@', domain characters, each part non-empty |
| Text.IsEmailHasOneAt | src/service/UsuarioService.java:93-100 | an accepted e-mail holds exactly one '@' |
| ServicoUsuarios.DadosAceitos | src/service/UsuarioService.java:53-120 | an accepted user has a trimmed name of at least three characters with non-blank ends, exactly eleven CPF digits, and an e-mail of the pattern with one '@' |
| ServicoUsuarios.NomeEmBrancoRecusado | src/service/UsuarioService.java:55-57 | a full name made only of blanks is refused for its length |
| ServicoUsuarios.CpfEmOutroFormatoNaoConflita | src/service/UsuarioService.java:35-37 | a stored punctuated CPF does not block the same number typed bare, though both are valid and have the same digits |
| ServicoUsuarios.UsuarioService.constructor | src/service/UsuarioService.java:20-22 | a new service has an empty repository, with CPFs and logins distinct |
| ServicoUsuarios.UsuarioService.CadastrarUsuario | src/service/UsuarioService.java:30-46 | an invalid user gets its validation failure; then a taken CPF, then a taken login, is a conflict; otherwise exactly that user is appended; every failure leaves the store unchanged; CPFs and logins stay distinct |
| ServicoUsuarios.UsuarioService.Autenticar | src/service/UsuarioService.java:128-130 | returns the repository's first user with that login and password |
| ServicoUsuarios.UsuarioService.AtualizarUsuario | src/service/UsuarioService.java:154-159 | an invalid user gets its validation failure and nothing changes; otherwise the replace-by-id runs, true iff the id is stored; CPFs and logins stay distinct when the replaced user keeps the stored user's identity |
| ServicoUsuarios.AtualizacaoPorSetters | src/service/UsuarioService.java:154-159 | with distinct ids, a user obtained from a stored one by setter calls is written back at that user's position and keeps its CPF and login |
| ServicoUsuarios.UsuarioService.RemoverUsuario | src/service/UsuarioService.java:166-168 | every user with that CPF goes; true iff one existed; CPFs and logins stay distinct |
| ServicoProjetos.ValidarDatas | src/service/ProjetoService.java:73-85 | accepts iff today ≤ start ≤ expected end; a start after the end is reported first, then a start in the past |
| ServicoProjetos.ValidarDadosProjeto | src/service/ProjetoService.java:48-66 | accepts iff trimmed name ≥ 3, trimmed description ≥ 10, valid dates and a manager; otherwise reports exactly the first failing check in the order name, description, start after end, start in the past, manager |
| ServicoProjetos.ProjetoAceitoEmDia | src/service/ProjetoService.java:48-85 | an accepted project has a non-negative planned duration and is not late on any day up to its expected end, today included |
| ServicoProjetos.ProjetoService.constructor | src/service/ProjetoService.java:20-22 | a new service has an empty repository, with names distinct |
| ServicoProjetos.ProjetoService.CadastrarProjeto | src/service/ProjetoService.java:30-41 | an invalid project gets its validation failure; a name taken ignoring case is a conflict; otherwise exactly that project is appended and its name is taken afterwards; failures leave the store unchanged; names stay distinct |
| ServicoProjetos.ProjetoService.AtualizarStatusProjeto | src/service/ProjetoService.java:93-103 | true iff a project with that name exists ignoring case; without one nothing changes; with distinct ids only that project's status changes, and names stay distinct |
| ServicoProjetos.ProjetoService.RemoverProjeto | src/service/ProjetoService.java:163-165 | every project with that name ignoring case goes; true iff one existed |
| ServicoEquipes.ValidarDadosEquipe | src/service/EquipeService.java:33-43 | accepts iff trimmed name ≥ 3 and trimmed description ≥ 10; the name is reported first |
| ServicoEquipes.EquipeService.constructor | src/service/EquipeService.java:16-18 | a new service has an empty repository, which satisfies the team invariants |
| ServicoEquipes.EquipeService.CadastrarEquipe | src/service/EquipeService.java:20-31 | an invalid team gets its validation failure; a name taken ignoring case is a conflict; otherwise exactly that team is appended; failures leave the store unchanged; names stay distinct |
| ServicoEquipes.EquipeService.AdicionarMembroNaEquipe | src/service/EquipeService.java:45-67 | not found, already a member and team full are each reported exactly when they apply, before any change; on success the user is appended to that team, and with distinct ids only that team changes; the cap of 10, distinct members and distinct names are kept |
| ServicoEquipes.EquipeService.RemoverMembroDaEquipe | src/service/EquipeService.java:69-86 | not found and not a member are each reported exactly when they apply, before any change; on success the team has one member fewer and, without repeated members, the user is gone; with distinct ids only that team changes; the invariants are kept |
| ServicoEquipes.EquipeService.Regravar | src/service/EquipeService.java:62-63 | writing a team changed in place back by id always succeeds, and with distinct ids it only replaces that position; the cap and distinct members hold if they held for the store and hold for the new team |
| ServicoEquipes.EscritaPorIdPreserva | src/service/EquipeService.java:62-63 | changing one team in place and writing it back by id keeps the cap, distinct members and, with distinct ids, distinct names |
| ServicoEquipes.EquipeService.AtualizarEquipe | src/service/EquipeService.java:104-109 | an invalid team gets its validation failure and nothing changes; otherwise the replace-by-id runs, true iff the id is stored |
| ServicoEquipes.EquipeService.RemoverEquipe | src/service/EquipeService.java:111-113 | every team with that name ignoring case goes; true iff one existed |

## Left out

- The console view `src/view/SistemaGestaoView.java` is not part of this model. It is menus, prompts, date parsing and exit.
- `model/Perfil.java` is not part of this model. Its three roles appear as the datatype `Usuarios.Perfil`.
- Id generation with `UUID.randomUUID` is left out. Ids are parameters, and their distinctness is a hypothesis wherever a fact needs it.
- Clock reads are left out. `LocalDate.now()` is the parameter `hoje`, and the creation timestamps (`dataCriacao`) are omitted.
- `LocalDate` calendar arithmetic is modelled as integer day numbers.
- Null references are not modelled. Every string is present, and the project manager is an `Option`.
  - The source's `== null` checks have no counterpart.
  - `RepositorioProjetos.ProjetoRepository.ListarPorGerente` requires every stored project to have a manager, because the source dereferences a missing manager and fails with a null-pointer error.
- `trim`, `equalsIgnoreCase` and the character classes are ASCII-only. Unicode case mappings beyond ASCII and UTF-16 code units are not modelled.
- The Java regex engine is not modelled. The e-mail check is the character-class predicate `Text.IsEmail`, proved equal to the pattern's language.
- `toString`, `hashCode` and the exception message texts are not modelled. Failures are `Failure` kinds.
- `listarTodos`/`listarTodas`, `getMembros` and `quantidade*` are not modelled as separate members. On values, the stored `seq` and its length are those copies and counts.
- The services' list and count delegations (`listarUsuariosPorPerfil`, `listarProjetosPorStatus`, `quantidadeProjetosPorStatus`, `listarEquipesPorTamanho`, …) are not modelled as separate members. They forward unchanged to the repository functions modelled above.
- Aliasing beyond the modelled write-back is not modelled:
  - Users held inside teams and projects are value copies, so later changes to a stored user do not reach them.
  - `ListarGerentes` sees each member's role as it was when the member was added.
- `RepositorioEquipes.EquipeRepository.AdicionarMembroNaEquipe` and the team service's add-member operation are the only places the member cap is enforced. `atualizarEquipe` stores any team it is given, so `Integra` is preserved by the membership operations only.
- `ServicoEquipes.EquipeService.AdicionarMembroNaEquipe`, `ServicoEquipes.EquipeService.RemoverMembroDaEquipe` and `ServicoProjetos.ProjetoService.AtualizarStatusProjeto`: "only that team/project changes" is stated under distinct ids. Without them, the model states the exact replace-by-id result the source produces.
- Concurrency is not modelled. The source is single-threaded.
