/**
 * `service.ProjetoService`: field and date validation and the duplicate
 * name check in front of a `ProjetoRepository`. The current date `hoje` is
 * a parameter; a failed check is reported as a `Failure` and leaves the
 * store as it was.
 */
module ServicoProjetos {
  import opened Wrappers
  import Lists
  import Text
  import Usuarios
  import opened Projetos
  import opened RepositorioProjetos

  /** Least length of the trimmed project name. */
  const MinNome: nat := 3
  /** Least length of the trimmed description. */
  const MinDescricao: nat := 10

  /**
   * `validarDatas`: the start may not follow the expected end, and may not
   * precede today. The first check wins.
   */
  function ValidarDatas(inicio: int, termino: int, hoje: int): (r: Option<Failure>)
    ensures r.None? <==> hoje <= inicio <= termino
    ensures r == Some(Validation(StartAfterEnd)) <==> inicio > termino
    ensures r == Some(Validation(StartInPast)) <==> inicio <= termino && inicio < hoje
  {
    if inicio > termino then Some(Validation(StartAfterEnd))
    else if inicio < hoje then Some(Validation(StartInPast))
    else None
  }

  /** The conditions `validarDadosProjeto` accepts on day `hoje`. */
  predicate DadosValidos(p: Projeto, hoje: int) {
    |Text.Trim(p.nome)| >= MinNome && |Text.Trim(p.descricao)| >= MinDescricao
    && hoje <= p.dataInicio <= p.dataTerminoPrevista && p.gerente.Some?
  }

  /**
   * `validarDadosProjeto`: the first failing check in the order name,
   * description, dates, manager; nothing when all pass.
   */
  function ValidarDadosProjeto(p: Projeto, hoje: int): (r: Option<Failure>)
    ensures r.None? <==> DadosValidos(p, hoje)
    ensures r.Some? ==> r.value.Validation?
    ensures r == Some(Validation(NameTooShort)) <==> |Text.Trim(p.nome)| < MinNome
    ensures r == Some(Validation(DescriptionTooShort)) <==>
      |Text.Trim(p.nome)| >= MinNome && |Text.Trim(p.descricao)| < MinDescricao
    ensures r == Some(Validation(StartAfterEnd)) <==>
      |Text.Trim(p.nome)| >= MinNome && |Text.Trim(p.descricao)| >= MinDescricao
      && p.dataInicio > p.dataTerminoPrevista
    ensures r == Some(Validation(StartInPast)) <==>
      |Text.Trim(p.nome)| >= MinNome && |Text.Trim(p.descricao)| >= MinDescricao
      && p.dataInicio <= p.dataTerminoPrevista && p.dataInicio < hoje
    ensures r == Some(Validation(ManagerMissing)) <==>
      |Text.Trim(p.nome)| >= MinNome && |Text.Trim(p.descricao)| >= MinDescricao
      && hoje <= p.dataInicio <= p.dataTerminoPrevista && p.gerente.None?
  {
    if |Text.Trim(p.nome)| < MinNome then Some(Validation(NameTooShort))
    else if |Text.Trim(p.descricao)| < MinDescricao then Some(Validation(DescriptionTooShort))
    else
      var datas := ValidarDatas(p.dataInicio, p.dataTerminoPrevista, hoje);
      if datas.Some? then datas
      else if p.gerente.None? then Some(Validation(ManagerMissing))
      else None
  }

  /**
   * A project accepted on day `hoje` has a non-negative planned duration
   * and is not late on any day up to its expected end.
   */
  lemma ProjetoAceitoEmDia(p: Projeto, hoje: int)
    requires ValidarDadosProjeto(p, hoje).None?
    ensures p.DuracaoPrevista() >= 0
    ensures forall dia :: dia <= p.dataTerminoPrevista ==> !p.EstaAtrasado(dia)
    ensures !p.EstaAtrasado(hoje)
  {
  }

  class ProjetoService {
    const repo: ProjetoRepository

    /** A new service owns a new, empty repository. */
    constructor()
      ensures fresh(repo) && repo.projetos == [] && repo.NomesDistintos()
    {
      repo := new ProjetoRepository();
    }

    /**
     * `cadastrarProjeto`: validation, then the duplicate name check
     * (ignoring case), then `adicionar`. A registration that passes adds
     * exactly that project, after which the same name is taken; any failure
     * leaves the store unchanged.
     */
    method CadastrarProjeto(p: Projeto, hoje: int) returns (r: Result<bool>)
      modifies repo
      ensures ValidarDadosProjeto(p, hoje).Some? ==> r == Err(ValidarDadosProjeto(p, hoje).value)
      ensures r == Err(Conflict(NameTaken)) <==>
        DadosValidos(p, hoje) && Lists.AnyMatch(old(repo.projetos), NamedLike(p.nome))
      ensures r.Ok? <==> DadosValidos(p, hoje) && !Lists.AnyMatch(old(repo.projetos), NamedLike(p.nome))
      ensures r.Ok? ==> r.value && repo.projetos == old(repo.projetos) + [p]
      ensures r.Ok? ==> Lists.AnyMatch(repo.projetos, NamedLike(p.nome))
      ensures r.Err? ==> repo.projetos == old(repo.projetos)
      ensures old(repo.NomesDistintos()) ==> repo.NomesDistintos()
    {
      var invalido := ValidarDadosProjeto(p, hoje);
      if invalido.Some? {
        return Err(invalido.value);
      }
      if repo.BuscarPorNome(p.nome).Some? {
        return Err(Conflict(NameTaken));
      }
      var ok := repo.Adicionar(p);
      assert NamedLike(p.nome)(repo.projetos[|repo.projetos| - 1]);
      return Ok(ok);
    }

    /**
     * `atualizarStatusProjeto`: sets the status of the first project named
     * `nomeProjeto` (ignoring case) in place, then writes it back by id.
     * Without such a project it answers false and changes nothing. With
     * distinct ids the net effect is that one project's status change.
     */
    method AtualizarStatusProjeto(nomeProjeto: string, novoStatus: Status) returns (ok: bool)
      modifies repo
      ensures ok <==> Lists.AnyMatch(old(repo.projetos), NamedLike(nomeProjeto))
      ensures !ok ==> repo.projetos == old(repo.projetos)
      ensures var i := Lists.FirstIndex(old(repo.projetos), NamedLike(nomeProjeto));
        ok ==> var q := old(repo.projetos)[i].SetStatus(novoStatus);
          repo.projetos == Lists.ReplaceFirst(old(repo.projetos)[i := q], WithId(q.id), q)
      ensures var i := Lists.FirstIndex(old(repo.projetos), NamedLike(nomeProjeto));
        ok && Lists.Unique(old(repo.projetos), IdOf) ==>
          repo.projetos == old(repo.projetos)[i := old(repo.projetos)[i].SetStatus(novoStatus)]
          && (old(repo.NomesDistintos()) ==> repo.NomesDistintos())
    {
      var i := Lists.FirstIndex(repo.projetos, NamedLike(nomeProjeto));
      if i == |repo.projetos| {
        return false;
      }
      var antes := repo.projetos;
      var q := repo.projetos[i].SetStatus(novoStatus);
      repo.projetos := repo.projetos[i := q];
      assert WithId(q.id)(repo.projetos[i]);
      if Lists.Unique(antes, IdOf) {
        Lists.SetThenReplaceFirst(antes, i, q, WithId(q.id), IdOf);
        if Lists.Unique(antes, NomeChave) {
          Lists.SetKeepsUnique(antes, i, q, NomeChave);
        }
      }
      ok := repo.Atualizar(q);
    }

    /** `removerProjeto`: every project with that name, ignoring case, is removed. */
    method RemoverProjeto(nomeProjeto: string) returns (ok: bool)
      modifies repo
      ensures repo.projetos == Lists.RemoveAll(old(repo.projetos), NamedLike(nomeProjeto))
      ensures ok <==> Lists.AnyMatch(old(repo.projetos), NamedLike(nomeProjeto))
      ensures !Lists.AnyMatch(repo.projetos, NamedLike(nomeProjeto))
    {
      ok := repo.Remover(nomeProjeto);
    }
  }
}
