/**
 * `repository.ProjetoRepository`: the projects, in insertion order. The
 * name, compared ignoring case, is the key `adicionar` keeps unique.
 */
module RepositorioProjetos {
  import opened Wrappers
  import Lists
  import Text
  import Usuarios
  import opened Projetos

  /**
   * No stored name equals `nome` ignoring case, so no stored name has the
   * same case-folded key as `nome`.
   */
  lemma NomeLivre(projetos: seq<Projeto>, p: Projeto)
    requires !Lists.AnyMatch(projetos, NamedLike(p.nome))
    ensures forall i :: 0 <= i < |projetos| ==> NomeChave(projetos[i]) != NomeChave(p)
  {
    forall i | 0 <= i < |projetos| ensures NomeChave(projetos[i]) != NomeChave(p) {
      assert !NamedLike(p.nome)(projetos[i]);
      Text.EqualsIgnoreCaseIsFoldEquality(projetos[i].nome, p.nome);
    }
  }

  class ProjetoRepository {
    var projetos: seq<Projeto>

    /** No two stored projects have names that are equal ignoring case. */
    ghost predicate NomesDistintos()
      reads this
    {
      Lists.Unique(projetos, NomeChave)
    }

    /** A new repository is empty. */
    constructor()
      ensures projetos == [] && NomesDistintos()
    {
      projetos := [];
    }

    /** `buscarPorNome`: the first project whose name equals `nome` ignoring case. */
    function BuscarPorNome(nome: string): (r: Option<Projeto>)
      reads this
      ensures Lists.IsFirst(projetos, NamedLike(nome), r)
      ensures r.Some? <==> exists i :: 0 <= i < |projetos| && Text.EqualsIgnoreCase(projetos[i].nome, nome)
    {
      Lists.Find(projetos, NamedLike(nome))
    }

    /** `buscarPorId`: the first project with id `id`. */
    function BuscarPorId(id: Usuarios.Id): (r: Option<Projeto>)
      reads this
      ensures Lists.IsFirst(projetos, WithId(id), r)
      ensures r.Some? <==> exists i :: 0 <= i < |projetos| && projetos[i].id == id
    {
      Lists.Find(projetos, WithId(id))
    }

    /**
     * `adicionar`: refuses a project whose name equals a stored name
     * ignoring case; otherwise appends it. It keeps names distinct.
     */
    method Adicionar(p: Projeto) returns (ok: bool)
      modifies this
      ensures ok <==> !Lists.AnyMatch(old(projetos), NamedLike(p.nome))
      ensures ok ==> projetos == old(projetos) + [p]
      ensures !ok ==> projetos == old(projetos)
      ensures old(NomesDistintos()) ==> NomesDistintos()
    {
      if BuscarPorNome(p.nome).Some? {
        return false;
      }
      NomeLivre(projetos, p);
      if NomesDistintos() {
        Lists.AppendKeepsUnique(projetos, p, NomeChave);
      }
      projetos := projetos + [p];
      return true;
    }

    /** `listarPorStatus`: the projects with status `status`, in store order. */
    function ListarPorStatus(status: Status): (r: seq<Projeto>)
      reads this
      ensures forall q :: q in r <==> q in projetos && q.status == status
      ensures |r| == Lists.Count(projetos, WithStatus(status))
      ensures Lists.IsSubsequence(r, projetos)
    {
      Lists.CountIsFilterLength(projetos, WithStatus(status));
      Lists.FilterIsSubsequence(projetos, WithStatus(status));
      Lists.FilterMembers(projetos, WithStatus(status));
      Lists.Filter(projetos, WithStatus(status))
    }

    /**
     * `listarPorGerente`: the projects whose manager is `gerente`, in store
     * order. The source dereferences every stored manager, so every stored
     * project must have one.
     */
    function ListarPorGerente(gerente: Usuarios.Usuario): (r: seq<Projeto>)
      reads this
      requires forall q :: q in projetos ==> q.gerente.Some?
      ensures forall q :: q in r <==> q in projetos && q.gerente.value.id == gerente.id
      ensures |r| == Lists.Count(projetos, ManagedBy(gerente))
      ensures Lists.IsSubsequence(r, projetos)
    {
      Lists.CountIsFilterLength(projetos, ManagedBy(gerente));
      Lists.FilterIsSubsequence(projetos, ManagedBy(gerente));
      Lists.FilterMembers(projetos, ManagedBy(gerente));
      Lists.Filter(projetos, ManagedBy(gerente))
    }

    /**
     * `listarPorIntervaloData`: the projects that start no earlier than
     * `inicio` and are expected to end no later than `fim`, in store order.
     */
    function ListarPorIntervaloData(inicio: int, fim: int): (r: seq<Projeto>)
      reads this
      ensures forall q :: q in r <==> q in projetos && inicio <= q.dataInicio && q.dataTerminoPrevista <= fim
      ensures |r| == Lists.Count(projetos, WithinDates(inicio, fim))
      ensures Lists.IsSubsequence(r, projetos)
    {
      Lists.CountIsFilterLength(projetos, WithinDates(inicio, fim));
      Lists.FilterIsSubsequence(projetos, WithinDates(inicio, fim));
      Lists.FilterMembers(projetos, WithinDates(inicio, fim));
      Lists.Filter(projetos, WithinDates(inicio, fim))
    }

    /** `listarProjetosAtrasados`: the projects late on day `hoje`, in store order. */
    function ListarProjetosAtrasados(hoje: int): (r: seq<Projeto>)
      reads this
      ensures forall q :: q in r <==> q in projetos && q.EstaAtrasado(hoje)
      ensures forall q :: q in r ==> q.status != Concluido
      ensures |r| == Lists.Count(projetos, LateOn(hoje))
      ensures Lists.IsSubsequence(r, projetos)
    {
      Lists.CountIsFilterLength(projetos, LateOn(hoje));
      Lists.FilterIsSubsequence(projetos, LateOn(hoje));
      Lists.FilterMembers(projetos, LateOn(hoje));
      Lists.Filter(projetos, LateOn(hoje))
    }

    /**
     * `contarProjetosPorStatus`: as many as `listarPorStatus` lists, and no
     * more than `quantidadeProjetos`.
     */
    function ContarProjetosPorStatus(status: Status): (n: nat)
      reads this
      ensures n == |ListarPorStatus(status)|
      ensures n <= |projetos|
      ensures n == 0 <==> forall q :: q in projetos ==> q.status != status
    {
      Lists.CountIsFilterLength(projetos, WithStatus(status));
      Lists.Count(projetos, WithStatus(status))
    }

    /**
     * `atualizar`: the indexed scan that overwrites the first project with
     * `p`'s id. Every other position keeps its project; without a project
     * with that id nothing changes.
     */
    method Atualizar(p: Projeto) returns (ok: bool)
      modifies this
      ensures ok <==> Lists.AnyMatch(old(projetos), WithId(p.id))
      ensures projetos == Lists.ReplaceFirst(old(projetos), WithId(p.id), p)
    {
      var i := 0;
      while i < |projetos|
        invariant i <= |projetos|
        invariant projetos == old(projetos)
        invariant forall j :: 0 <= j < i ==> projetos[j].id != p.id
      {
        if projetos[i].id == p.id {
          projetos := projetos[i := p];
          return true;
        }
        i := i + 1;
      }
      return false;
    }

    /**
     * `remover`: `removeIf` on the name ignoring case. Every such project
     * goes, the others stay in order, and the answer says whether the list
     * shrank.
     */
    method Remover(nome: string) returns (ok: bool)
      modifies this
      ensures projetos == Lists.RemoveAll(old(projetos), NamedLike(nome))
      ensures ok <==> |projetos| < |old(projetos)|
      ensures ok <==> Lists.AnyMatch(old(projetos), NamedLike(nome))
      ensures !Lists.AnyMatch(projetos, NamedLike(nome))
      ensures old(NomesDistintos()) ==> NomesDistintos()
    {
      var before := projetos;
      projetos := Lists.RemoveAll(projetos, NamedLike(nome));
      Lists.RemoveAllShrinks(before, NamedLike(nome));
      if Lists.Unique(before, NomeChave) {
        Lists.FilterKeepsUnique(before, Lists.Not(NamedLike(nome)), NomeChave);
      }
      ok := |projetos| < |before|;
    }
  }

  /**
   * Counting by status partitions the store: the four counts add up to
   * `quantidadeProjetos`.
   */
  lemma ContagensSomamTotal(repo: ProjetoRepository)
    ensures repo.ContarProjetosPorStatus(Planejado) + repo.ContarProjetosPorStatus(EmAndamento)
      + repo.ContarProjetosPorStatus(Concluido) + repo.ContarProjetosPorStatus(Cancelado)
      == |repo.projetos|
  {
    ContagensPorStatus(repo.projetos);
  }

  lemma {:induction false} ContagensPorStatus(s: seq<Projeto>)
    ensures Lists.Count(s, WithStatus(Planejado)) + Lists.Count(s, WithStatus(EmAndamento))
      + Lists.Count(s, WithStatus(Concluido)) + Lists.Count(s, WithStatus(Cancelado))
      == |s|
  {
    if s != [] {
      ContagensPorStatus(s[1..]);
    }
  }
}
