/**
 * `repository.UsuarioRepository`: the users, in insertion order, in a list
 * the repository owns. The CPF is the key `adicionar` keeps unique; login
 * and CPF lookups compare exactly.
 */
module RepositorioUsuarios {
  import opened Wrappers
  import Lists
  import opened Usuarios

  class UsuarioRepository {
    var usuarios: seq<Usuario>

    /** No two stored users carry the same CPF string. */
    ghost predicate CpfsDistintos()
      reads this
    {
      Lists.Unique(usuarios, CpfOf)
    }

    /** A new repository is empty. */
    constructor()
      ensures usuarios == [] && CpfsDistintos()
    {
      usuarios := [];
    }

    /** `buscarPorCPF`: the first user whose CPF equals `cpf` exactly. */
    function BuscarPorCpf(cpf: string): (r: Option<Usuario>)
      reads this
      ensures Lists.IsFirst(usuarios, WithCpf(cpf), r)
      ensures r.Some? <==> exists i :: 0 <= i < |usuarios| && usuarios[i].cpf == cpf
    {
      Lists.Find(usuarios, WithCpf(cpf))
    }

    /** `buscarPorLogin`: the first user whose login equals `login` exactly. */
    function BuscarPorLogin(login: string): (r: Option<Usuario>)
      reads this
      ensures Lists.IsFirst(usuarios, WithLogin(login), r)
      ensures r.Some? <==> exists i :: 0 <= i < |usuarios| && usuarios[i].login == login
    {
      Lists.Find(usuarios, WithLogin(login))
    }

    /**
     * `adicionar`: refuses a user whose CPF string is already stored;
     * otherwise appends it. Only this operation adds users, and it keeps
     * CPFs distinct.
     */
    method Adicionar(u: Usuario) returns (ok: bool)
      modifies this
      ensures ok <==> !Lists.AnyMatch(old(usuarios), WithCpf(u.cpf))
      ensures ok ==> usuarios == old(usuarios) + [u]
      ensures !ok ==> usuarios == old(usuarios)
      ensures old(CpfsDistintos()) ==> CpfsDistintos()
    {
      if BuscarPorCpf(u.cpf).Some? {
        return false;
      }
      if CpfsDistintos() {
        Lists.AppendKeepsUnique(usuarios, u, CpfOf);
      }
      usuarios := usuarios + [u];
      return true;
    }

    /** `listarPorPerfil`: the users with role `perfil`, in store order. */
    function ListarPorPerfil(perfil: Perfil): (r: seq<Usuario>)
      reads this
      ensures forall v :: v in r <==> v in usuarios && v.perfil == perfil
      ensures |r| == Lists.Count(usuarios, WithPerfil(perfil))
      ensures Lists.IsSubsequence(r, usuarios)
    {
      Lists.CountIsFilterLength(usuarios, WithPerfil(perfil));
      Lists.FilterIsSubsequence(usuarios, WithPerfil(perfil));
      Lists.FilterMembers(usuarios, WithPerfil(perfil));
      Lists.Filter(usuarios, WithPerfil(perfil))
    }

    /**
     * `atualizar`: the indexed scan that overwrites the first user with
     * `u`'s id. Every other position keeps its user; without a user with
     * that id nothing changes.
     */
    method Atualizar(u: Usuario) returns (ok: bool)
      modifies this
      ensures ok <==> Lists.AnyMatch(old(usuarios), WithId(u.id))
      ensures usuarios == Lists.ReplaceFirst(old(usuarios), WithId(u.id), u)
    {
      var i := 0;
      while i < |usuarios|
        invariant i <= |usuarios|
        invariant usuarios == old(usuarios)
        invariant forall j :: 0 <= j < i ==> usuarios[j].id != u.id
      {
        if usuarios[i].id == u.id {
          usuarios := usuarios[i := u];
          return true;
        }
        i := i + 1;
      }
      return false;
    }

    /**
     * `remover`: `removeIf` on the CPF. Every user with that CPF goes, the
     * others stay in order, and the answer says whether the list shrank.
     */
    method Remover(cpf: string) returns (ok: bool)
      modifies this
      ensures usuarios == Lists.RemoveAll(old(usuarios), WithCpf(cpf))
      ensures ok <==> |usuarios| < |old(usuarios)|
      ensures ok <==> Lists.AnyMatch(old(usuarios), WithCpf(cpf))
      ensures !Lists.AnyMatch(usuarios, WithCpf(cpf))
      ensures old(CpfsDistintos()) ==> CpfsDistintos()
    {
      var before := usuarios;
      usuarios := Lists.RemoveAll(usuarios, WithCpf(cpf));
      Lists.RemoveAllShrinks(before, WithCpf(cpf));
      if Lists.Unique(before, CpfOf) {
        Lists.FilterKeepsUnique(before, Lists.Not(WithCpf(cpf)), CpfOf);
      }
      ok := |usuarios| < |before|;
    }

    /**
     * `autenticar`: the first user whose login is `login` and whose
     * password is `senha`, both compared verbatim.
     */
    function Autenticar(login: string, senha: string): (r: Option<Usuario>)
      reads this
      ensures Lists.IsFirst(usuarios, WithCredenciais(login, senha), r)
      ensures r.Some? ==> r.value in usuarios && r.value.login == login && r.value.VerificarSenha(senha)
      ensures r.None? <==> forall v :: v in usuarios ==> v.login != login || v.senha != senha
    {
      Lists.Find(usuarios, WithCredenciais(login, senha))
    }
  }

  /**
   * With CPFs distinct, authentication by login and password never
   * returns a user other than the one found by that user's CPF.
   */
  lemma AutenticarCoincideComCpf(repo: UsuarioRepository, login: string, senha: string)
    requires repo.CpfsDistintos()
    ensures var r := repo.Autenticar(login, senha);
      r.Some? ==> repo.BuscarPorCpf(r.value.cpf) == r
  {
    var r := repo.Autenticar(login, senha);
    if r.Some? {
      var i :| 0 <= i < |repo.usuarios| && repo.usuarios[i] == r.value;
      Lists.UniqueFirstIndex(repo.usuarios, i, WithCpf(r.value.cpf), CpfOf);
    }
  }
}
