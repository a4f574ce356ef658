/**
 * `service.EquipeService`: validation, the duplicate name check and the
 * membership policy (no repeated member, at most `LimiteMembros` members,
 * removal only of current members) in front of an `EquipeRepository`. A
 * failed check is reported as a `Failure` and leaves the store as it was.
 */
module ServicoEquipes {
  import opened Wrappers
  import Lists
  import Text
  import Usuarios
  import opened Equipes
  import opened RepositorioEquipes

  /** Least length of the trimmed team name. */
  const MinNome: nat := 3
  /** Least length of the trimmed description. */
  const MinDescricao: nat := 10

  /** The conditions `validarDadosEquipe` accepts. */
  predicate DadosValidos(e: Equipe) {
    |Text.Trim(e.nome)| >= MinNome && |Text.Trim(e.descricao)| >= MinDescricao
  }

  /** `validarDadosEquipe`: the name is checked first, then the description. */
  function ValidarDadosEquipe(e: Equipe): (r: Option<Failure>)
    ensures r.None? <==> DadosValidos(e)
    ensures r == Some(Validation(NameTooShort)) <==> |Text.Trim(e.nome)| < MinNome
    ensures r == Some(Validation(DescriptionTooShort)) <==>
      |Text.Trim(e.nome)| >= MinNome && |Text.Trim(e.descricao)| < MinDescricao
  {
    if |Text.Trim(e.nome)| < MinNome then Some(Validation(NameTooShort))
    else if |Text.Trim(e.descricao)| < MinDescricao then Some(Validation(DescriptionTooShort))
    else None
  }

  /**
   * The state the service keeps: team names distinct ignoring case, every
   * team within the member cap, no team listing a user twice.
   */
  ghost predicate Integra(equipes: seq<Equipe>) {
    Lists.Unique(equipes, NomeChave) && DentroDoLimite(equipes) && MembrosDistintos(equipes)
  }

  class EquipeService {
    const repo: EquipeRepository

    /** A new service owns a new, empty repository. */
    constructor()
      ensures fresh(repo) && repo.equipes == [] && Integra(repo.equipes)
    {
      repo := new EquipeRepository();
    }

    /**
     * `cadastrarEquipe`: validation, then the duplicate name check
     * (ignoring case), then `adicionar`. A registration that passes adds
     * exactly that team; any failure leaves the store unchanged.
     */
    method CadastrarEquipe(e: Equipe) returns (r: Result<bool>)
      modifies repo
      ensures ValidarDadosEquipe(e).Some? ==> r == Err(ValidarDadosEquipe(e).value)
      ensures r == Err(Conflict(NameTaken)) <==>
        DadosValidos(e) && Lists.AnyMatch(old(repo.equipes), NamedLike(e.nome))
      ensures r.Ok? <==> DadosValidos(e) && !Lists.AnyMatch(old(repo.equipes), NamedLike(e.nome))
      ensures r.Ok? ==> r.value && repo.equipes == old(repo.equipes) + [e]
      ensures r.Err? ==> repo.equipes == old(repo.equipes)
      ensures old(repo.NomesDistintos()) ==> repo.NomesDistintos()
    {
      var invalido := ValidarDadosEquipe(e);
      if invalido.Some? {
        return Err(invalido.value);
      }
      if repo.BuscarPorNome(e.nome).Some? {
        return Err(Conflict(NameTaken));
      }
      var ok := repo.Adicionar(e);
      return Ok(ok);
    }

    /**
     * `adicionarMembroNaEquipe`: finds the first team named `nomeEquipe`
     * (ignoring case); refuses a user who is already a member and a team at
     * the cap, before changing anything; otherwise appends the user to that
     * team in place and writes the team back by id. The team then has the
     * user and exactly one member more; no team goes over the cap and no
     * team lists a user twice. With distinct ids the other teams are untouched.
     */
    method AdicionarMembroNaEquipe(nomeEquipe: string, membro: Usuarios.Usuario) returns (r: Result<bool>)
      modifies repo
      ensures var s, i := old(repo.equipes), Lists.FirstIndex(old(repo.equipes), NamedLike(nomeEquipe));
        && (r == Err(NotFound) <==> i == |s|)
        && (r == Err(Policy(AlreadyMember)) <==> i < |s| && s[i].ContemMembro(membro))
        && (r == Err(Policy(TeamFull)) <==>
              i < |s| && !s[i].ContemMembro(membro) && !PodAdicionarMembro(s[i], membro))
        && (r.Ok? <==> i < |s| && !s[i].ContemMembro(membro) && PodAdicionarMembro(s[i], membro))
      ensures r.Err? ==> repo.equipes == old(repo.equipes)
      ensures var s, i := old(repo.equipes), Lists.FirstIndex(old(repo.equipes), NamedLike(nomeEquipe));
        r.Ok? ==> var e := s[i].AdicionarMembro(membro);
          && r.value
          && e.membros == s[i].membros + [membro] && e.ContemMembro(membro)
          && repo.equipes == Lists.ReplaceFirst(s[i := e], WithId(e.id), e)
      ensures var s, i := old(repo.equipes), Lists.FirstIndex(old(repo.equipes), NamedLike(nomeEquipe));
        r.Ok? && Lists.Unique(s, IdOf) ==> repo.equipes == s[i := s[i].AdicionarMembro(membro)]
      ensures old(DentroDoLimite(repo.equipes)) ==> DentroDoLimite(repo.equipes)
      ensures old(MembrosDistintos(repo.equipes)) ==> MembrosDistintos(repo.equipes)
      ensures Lists.Unique(old(repo.equipes), IdOf) && old(Integra(repo.equipes)) ==> Integra(repo.equipes)
    {
      var i := Lists.FirstIndex(repo.equipes, NamedLike(nomeEquipe));
      if i == |repo.equipes| {
        return Err(NotFound);
      }
      var equipe := repo.equipes[i];
      if equipe.ContemMembro(membro) {
        return Err(Policy(AlreadyMember));
      }
      if !PodAdicionarMembro(equipe, membro) {
        return Err(Policy(TeamFull));
      }
      var ok := Regravar(i, equipe.AdicionarMembro(membro));
      return Ok(ok);
    }

    /**
     * `removerMembroDaEquipe`: finds the first team named `nomeEquipe`
     * (ignoring case); refuses a user who is not a member, before changing
     * anything; otherwise removes the user from that team in place and
     * writes the team back by id. The team then has one member fewer, and
     * when it listed no user twice, the user is no longer a member.
     */
    method RemoverMembroDaEquipe(nomeEquipe: string, membro: Usuarios.Usuario) returns (r: Result<bool>)
      modifies repo
      ensures var s, i := old(repo.equipes), Lists.FirstIndex(old(repo.equipes), NamedLike(nomeEquipe));
        && (r == Err(NotFound) <==> i == |s|)
        && (r == Err(Policy(NotMember)) <==> i < |s| && !s[i].ContemMembro(membro))
        && (r.Ok? <==> i < |s| && s[i].ContemMembro(membro))
      ensures r.Err? ==> repo.equipes == old(repo.equipes)
      ensures var s, i := old(repo.equipes), Lists.FirstIndex(old(repo.equipes), NamedLike(nomeEquipe));
        r.Ok? ==> var e := s[i].RemoverMembro(membro);
          && r.value
          && |e.membros| == |s[i].membros| - 1
          && (s[i].MembrosDistintos() ==> !e.ContemMembro(membro))
          && repo.equipes == Lists.ReplaceFirst(s[i := e], WithId(e.id), e)
      ensures var s, i := old(repo.equipes), Lists.FirstIndex(old(repo.equipes), NamedLike(nomeEquipe));
        r.Ok? && Lists.Unique(s, IdOf) ==> repo.equipes == s[i := s[i].RemoverMembro(membro)]
      ensures old(DentroDoLimite(repo.equipes)) ==> DentroDoLimite(repo.equipes)
      ensures old(MembrosDistintos(repo.equipes)) ==> MembrosDistintos(repo.equipes)
      ensures Lists.Unique(old(repo.equipes), IdOf) && old(Integra(repo.equipes)) ==> Integra(repo.equipes)
    {
      var i := Lists.FirstIndex(repo.equipes, NamedLike(nomeEquipe));
      if i == |repo.equipes| {
        return Err(NotFound);
      }
      var equipe := repo.equipes[i];
      if !equipe.ContemMembro(membro) {
        return Err(Policy(NotMember));
      }
      var ok := Regravar(i, equipe.RemoverMembro(membro));
      return Ok(ok);
    }

    /**
     * The stored team at position `i` changed in place to `e` (same id and
     * name), then written back with `atualizar`, as both membership
     * operations do. The write-back always finds the id; the cap and
     * distinct members survive when `e` keeps them.
     */
    method Regravar(i: nat, e: Equipe) returns (ok: bool)
      requires i < |repo.equipes| && e.id == repo.equipes[i].id && e.nome == repo.equipes[i].nome
      modifies repo
      ensures ok
      ensures repo.equipes == Lists.ReplaceFirst(old(repo.equipes)[i := e], WithId(e.id), e)
      ensures Lists.Unique(old(repo.equipes), IdOf) ==> repo.equipes == old(repo.equipes)[i := e]
      ensures old(DentroDoLimite(repo.equipes)) && |e.membros| <= LimiteMembros ==> DentroDoLimite(repo.equipes)
      ensures old(MembrosDistintos(repo.equipes)) && e.MembrosDistintos() ==> MembrosDistintos(repo.equipes)
      ensures Lists.Unique(old(repo.equipes), IdOf) && old(repo.NomesDistintos()) ==> repo.NomesDistintos()
    {
      EscritaPorIdPreserva(repo.equipes, i, e);
      repo.equipes := repo.equipes[i := e];
      assert WithId(e.id)(repo.equipes[i]);
      ok := repo.Atualizar(e);
    }

    /**
     * `atualizarEquipe`: validation, then `atualizar`. Neither the name
     * check nor the member policy runs again.
     */
    method AtualizarEquipe(e: Equipe) returns (r: Result<bool>)
      modifies repo
      ensures ValidarDadosEquipe(e).Some? ==> r == Err(ValidarDadosEquipe(e).value)
      ensures r.Err? ==> repo.equipes == old(repo.equipes)
      ensures r.Ok? <==> DadosValidos(e)
      ensures r.Ok? ==> (r.value <==> Lists.AnyMatch(old(repo.equipes), WithId(e.id)))
      ensures r.Ok? ==> repo.equipes == Lists.ReplaceFirst(old(repo.equipes), WithId(e.id), e)
    {
      var invalido := ValidarDadosEquipe(e);
      if invalido.Some? {
        return Err(invalido.value);
      }
      var ok := repo.Atualizar(e);
      return Ok(ok);
    }

    /** `removerEquipe`: every team with that name, ignoring case, is removed. */
    method RemoverEquipe(nomeEquipe: string) returns (ok: bool)
      modifies repo
      ensures repo.equipes == Lists.RemoveAll(old(repo.equipes), NamedLike(nomeEquipe))
      ensures ok <==> Lists.AnyMatch(old(repo.equipes), NamedLike(nomeEquipe))
      ensures !Lists.AnyMatch(repo.equipes, NamedLike(nomeEquipe))
    {
      ok := repo.Remover(nomeEquipe);
    }
  }

  /**
   * Changing the team at `i` in place and writing it back by id: the cap
   * and distinct members hold afterwards when they hold before and for the
   * new team; with distinct ids the write-back lands on `i` and names stay
   * distinct.
   */
  lemma EscritaPorIdPreserva(s: seq<Equipe>, i: nat, e: Equipe)
    requires i < |s| && e.id == s[i].id && e.nome == s[i].nome
    ensures var r := Lists.ReplaceFirst(s[i := e], WithId(e.id), e);
      && (DentroDoLimite(s) && |e.membros| <= LimiteMembros ==> DentroDoLimite(r))
      && (MembrosDistintos(s) && e.MembrosDistintos() ==> MembrosDistintos(r))
      && (Lists.Unique(s, IdOf) ==> r == s[i := e])
      && (Lists.Unique(s, IdOf) && Lists.Unique(s, NomeChave) ==> Lists.Unique(r, NomeChave))
  {
    var t := s[i := e];
    var r := Lists.ReplaceFirst(t, WithId(e.id), e);
    forall k | 0 <= k < |r| ensures r[k] == s[k] || r[k] == e {
      assert r[k] == t[k] || r[k] == e;
    }
    if Lists.Unique(s, IdOf) {
      Lists.SetThenReplaceFirst(s, i, e, WithId(e.id), IdOf);
      if Lists.Unique(s, NomeChave) {
        Lists.SetKeepsUnique(s, i, e, NomeChave);
      }
    }
  }
}
