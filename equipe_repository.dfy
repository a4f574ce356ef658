/**
 * `repository.EquipeRepository`: the teams, in insertion order. The name,
 * compared ignoring case, is the key `adicionar` keeps unique; at most
 * `LimiteMembros` members may be added through the repository.
 */
module RepositorioEquipes {
  import opened Wrappers
  import Lists
  import Text
  import Usuarios
  import opened Equipes

  /** The member cap of `podAdicionarMembro`. */
  const LimiteMembros: nat := 10

  /**
   * No stored name equals `nome` ignoring case, so no stored name has the
   * same case-folded key as `nome`.
   */
  lemma NomeLivre(equipes: seq<Equipe>, e: Equipe)
    requires !Lists.AnyMatch(equipes, NamedLike(e.nome))
    ensures forall i :: 0 <= i < |equipes| ==> NomeChave(equipes[i]) != NomeChave(e)
  {
    forall i | 0 <= i < |equipes| ensures NomeChave(equipes[i]) != NomeChave(e) {
      assert !NamedLike(e.nome)(equipes[i]);
      Text.EqualsIgnoreCaseIsFoldEquality(equipes[i].nome, e.nome);
    }
  }

  /**
   * `podAdicionarMembro`: the team has room below the cap, so adding any
   * user keeps it within the cap. The candidate member plays no part.
   */
  function PodAdicionarMembro(e: Equipe, membro: Usuarios.Usuario): (b: bool)
    ensures b <==> |e.membros| < LimiteMembros
    ensures b ==> |e.AdicionarMembro(membro).membros| <= LimiteMembros
  {
    e.QuantidadeMembros() < LimiteMembros
  }

  /** Every team in `equipes` is within the member cap. */
  ghost predicate DentroDoLimite(equipes: seq<Equipe>) {
    forall i :: 0 <= i < |equipes| ==> |equipes[i].membros| <= LimiteMembros
  }

  /** No team in `equipes` lists a user twice. */
  ghost predicate MembrosDistintos(equipes: seq<Equipe>) {
    forall i :: 0 <= i < |equipes| ==> equipes[i].MembrosDistintos()
  }

  class EquipeRepository {
    var equipes: seq<Equipe>

    /** No two stored teams have names that are equal ignoring case. */
    ghost predicate NomesDistintos()
      reads this
    {
      Lists.Unique(equipes, NomeChave)
    }

    /** A new repository is empty. */
    constructor()
      ensures equipes == [] && NomesDistintos()
    {
      equipes := [];
    }

    /** `buscarPorNome`: the first team whose name equals `nome` ignoring case. */
    function BuscarPorNome(nome: string): (r: Option<Equipe>)
      reads this
      ensures Lists.IsFirst(equipes, NamedLike(nome), r)
      ensures r.Some? <==> exists i :: 0 <= i < |equipes| && Text.EqualsIgnoreCase(equipes[i].nome, nome)
    {
      Lists.Find(equipes, NamedLike(nome))
    }

    /** `buscarPorId`: the first team with id `id`. */
    function BuscarPorId(id: Usuarios.Id): (r: Option<Equipe>)
      reads this
      ensures Lists.IsFirst(equipes, WithId(id), r)
      ensures r.Some? <==> exists i :: 0 <= i < |equipes| && equipes[i].id == id
    {
      Lists.Find(equipes, WithId(id))
    }

    /**
     * `adicionar`: refuses a team whose name equals a stored name ignoring
     * case; otherwise appends it. It keeps names distinct.
     */
    method Adicionar(e: Equipe) returns (ok: bool)
      modifies this
      ensures ok <==> !Lists.AnyMatch(old(equipes), NamedLike(e.nome))
      ensures ok ==> equipes == old(equipes) + [e]
      ensures !ok ==> equipes == old(equipes)
      ensures old(NomesDistintos()) ==> NomesDistintos()
    {
      if BuscarPorNome(e.nome).Some? {
        return false;
      }
      NomeLivre(equipes, e);
      if NomesDistintos() {
        Lists.AppendKeepsUnique(equipes, e, NomeChave);
      }
      equipes := equipes + [e];
      return true;
    }

    /** `listarPorMembro`: the teams that have `membro` as a member, in store order. */
    function ListarPorMembro(membro: Usuarios.Usuario): (r: seq<Equipe>)
      reads this
      ensures forall e :: e in r <==> e in equipes && e.ContemMembro(membro)
      ensures |r| == Lists.Count(equipes, HasMember(membro))
      ensures Lists.IsSubsequence(r, equipes)
    {
      Lists.CountIsFilterLength(equipes, HasMember(membro));
      Lists.FilterIsSubsequence(equipes, HasMember(membro));
      Lists.FilterMembers(equipes, HasMember(membro));
      Lists.Filter(equipes, HasMember(membro))
    }

    /**
     * `atualizar`: the indexed scan that overwrites the first team with
     * `e`'s id. Every other position keeps its team; without a team with
     * that id nothing changes.
     */
    method Atualizar(e: Equipe) returns (ok: bool)
      modifies this
      ensures ok <==> Lists.AnyMatch(old(equipes), WithId(e.id))
      ensures equipes == Lists.ReplaceFirst(old(equipes), WithId(e.id), e)
    {
      var i := 0;
      while i < |equipes|
        invariant i <= |equipes|
        invariant equipes == old(equipes)
        invariant forall j :: 0 <= j < i ==> equipes[j].id != e.id
      {
        if equipes[i].id == e.id {
          equipes := equipes[i := e];
          return true;
        }
        i := i + 1;
      }
      return false;
    }

    /**
     * `remover`: `removeIf` on the name ignoring case. Every such team goes,
     * the others stay in order, and the answer says whether the list shrank.
     */
    method Remover(nome: string) returns (ok: bool)
      modifies this
      ensures equipes == Lists.RemoveAll(old(equipes), NamedLike(nome))
      ensures ok <==> |equipes| < |old(equipes)|
      ensures ok <==> Lists.AnyMatch(old(equipes), NamedLike(nome))
      ensures !Lists.AnyMatch(equipes, NamedLike(nome))
      ensures old(NomesDistintos()) ==> NomesDistintos()
    {
      var before := equipes;
      equipes := Lists.RemoveAll(equipes, NamedLike(nome));
      Lists.RemoveAllShrinks(before, NamedLike(nome));
      if Lists.Unique(before, NomeChave) {
        Lists.FilterKeepsUnique(before, Lists.Not(NamedLike(nome)), NomeChave);
      }
      ok := |equipes| < |before|;
    }

    /**
     * `listarPorTamanho`: the teams by non-increasing member count. It is a
     * permutation of the store, and teams of equal size keep their store
     * order (the stream sort is stable).
     */
    function ListarPorTamanho(): (r: seq<Equipe>)
      reads this
      ensures multiset(r) == multiset(equipes)
      ensures Lists.NonIncreasing(r, Tamanho)
      ensures forall n :: Lists.Filter(r, Lists.KeyIs(Tamanho, n)) == Lists.Filter(equipes, Lists.KeyIs(Tamanho, n))
    {
      var r := Lists.SortDesc(equipes, Tamanho);
      assert forall n :: Lists.Filter(r, Lists.KeyIs(Tamanho, n)) == Lists.Filter(equipes, Lists.KeyIs(Tamanho, n)) by {
        forall n ensures Lists.Filter(r, Lists.KeyIs(Tamanho, n)) == Lists.Filter(equipes, Lists.KeyIs(Tamanho, n)) {
          Lists.SortStable(equipes, Tamanho, n);
        }
      }
      r
    }

    /**
     * `adicionarMembroNaEquipe`: finds the first team named `nomeEquipe`
     * (ignoring case) and, when it is below the cap, adds `membro` to it in
     * place. The call succeeds even when `membro` already belongs to the team.
     */
    method AdicionarMembroNaEquipe(nomeEquipe: string, membro: Usuarios.Usuario) returns (ok: bool)
      modifies this
      ensures var i := Lists.FirstIndex(old(equipes), NamedLike(nomeEquipe));
        && (ok <==> i < |old(equipes)| && PodAdicionarMembro(old(equipes)[i], membro))
        && (ok ==> equipes == old(equipes)[i := old(equipes)[i].AdicionarMembro(membro)]
                   && equipes[i].ContemMembro(membro))
      ensures !ok ==> equipes == old(equipes)
      ensures old(DentroDoLimite(equipes)) ==> DentroDoLimite(equipes)
      ensures old(MembrosDistintos(equipes)) ==> MembrosDistintos(equipes)
      ensures old(NomesDistintos()) ==> NomesDistintos()
    {
      var i := Lists.FirstIndex(equipes, NamedLike(nomeEquipe));
      if i < |equipes| && PodAdicionarMembro(equipes[i], membro) {
        equipes := equipes[i := equipes[i].AdicionarMembro(membro)];
        return true;
      }
      return false;
    }
  }
}
